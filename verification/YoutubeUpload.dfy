/** The resumable upload loop of app/integrations/connectors/google/youtube.py, run against a
    modelled asset host and upload server.

    The client sees HTTP exchanges only. The server keeps the contiguous bytes it has stored; it
    may cut a PUT short, lose an answer, hide the `Range` header, answer with any other status,
    or garble what it sends, but it never claims bytes it does not hold. Each turn of the loop
    is driven by one `Round` of such choices, so a run is a sequence of rounds and a theorem over
    all sequences covers every behaviour. What the HTTP client does with a body that is not as long
    as announced is a parameter of the job. 308 is the upload service's "Resume Incomplete". */
module YoutubeUpload {
  import opened Results

  type Bytes = seq<bv8>

  /** GoogleAuthError, GoogleQuotaError (a GoogleApiError), GoogleApiError, httpx.RequestError,
      and the ValueError of a malformed header or body. */
  datatype Error = Auth | Quota | Api | Network | Malformed

  /** What `except (httpx.RequestError, GoogleApiError)` catches. */
  predicate Caught(e: Error) {
    e == Quota || e == Api || e == Network
  }

  /** `_handle_errors`: None when it does not raise. */
  function Classify(status: int): Option<Error> {
    if status == 401 || status == 403 then Some(Auth)
    else if status == 429 then Some(Quota)
    else if status >= 400 then Some(Api)
    else None
  }

  // ----- Exchanges

  /** The `Range` header of an answer: the last stored byte, or something `int` cannot read. */
  datatype Range = Absent | Last(byte: nat) | Unreadable

  datatype Body = NotJson | Json(id: Option<string>)

  datatype Reply = NoReply | Reply(status: int, range: Range, body: Body)

  datatype Result = Uploaded(id: Option<string>) | Failed(error: Error)

  /** How the `try` block ends: it returns, goes on to the next turn, or raises. */
  datatype Attempt = Return(id: Option<string>) | Continue(uploaded: nat) | Raise(error: Error)

  function ReadPut(uploaded: nat, reply: Reply): Attempt {
    match reply
    case NoReply => Raise(Network)
    case Reply(status, range, body) =>
      if status == 200 || status == 201 then
        match body
        case NotJson => Raise(Malformed)
        case Json(id) => if id == None || id == Some("") then Raise(Api) else Return(id)
      else if status == 308 then
        match range
        case Absent => Raise(Api)
        case Last(byte) => Continue(byte + 1)
        case Unreadable => Raise(Malformed)
      else
        match Classify(status)
        case Some(e) => Raise(e)
        case None => Continue(uploaded)
  }

  /** The status probe of the `except` block. An error here is not caught again. */
  function ReadProbe(uploaded: nat, reply: Reply): Attempt {
    match reply
    case NoReply => Raise(Network)
    case Reply(status, range, body) =>
      if status == 308 then
        match range
        case Absent => Continue(0)
        case Last(byte) => Continue(byte + 1)
        case Unreadable => Raise(Malformed)
      else if status == 200 || status == 201 then
        match body
        case NotJson => Raise(Malformed)
        case Json(id) => Return(id)
      else
        match Classify(status)
        case Some(e) => Raise(e)
        case None => Continue(uploaded)
  }

  // ----- The asset host and the upload server

  type OtherStatus = s: int | s != 200 && s != 201 && s != 308 witness 500

  type RefusalStatus = s: int | s != 200 && s != 206 witness 404

  datatype Fetch = Served | Refused(status: RefusalStatus) | Broken

  datatype Answer =
    | Truthful(created: bool, body: Body)
    | Resume(hideRange: bool)
    | Status(code: OtherStatus)
    | Lost
    | Garbled

  /** What the environment does in one turn: the asset request, how many bytes of the PUT are
      accepted, the answer to it, and the answer to the probe if there is one. */
  datatype Round = Round(fetch: Fetch, accepted: nat, put: Answer, probe: Answer)

  /** What the HTTP client does with a body that does not fit its Content-Length: cut it silently,
      or stop before the first chunk that is too long and fail the request. */
  datatype Transport = Cutting | Refusing

  const CHUNK_SIZE := 1024 * 1024 * 4

  datatype Job = Job(asset: Bytes, fileSize: int, honoursRange: bool, transport: Transport)

  function StoredRange(stored: Bytes): Range {
    if stored == [] then Absent else Last(|stored| - 1)
  }

  function Answered(job: Job, stored: Bytes, a: Answer): Reply {
    match a
    case Truthful(created, body) =>
      if |stored| == job.fileSize then Reply(if created then 201 else 200, Absent, body)
      else Reply(308, StoredRange(stored), NotJson)
    case Resume(hideRange) => Reply(308, if hideRange then Absent else StoredRange(stored), NotJson)
    case Status(code) => Reply(code, Absent, NotJson)
    case Lost => NoReply
    case Garbled => Reply(308, Unreadable, NotJson)
  }

  function Cut(s: Bytes, n: int): (r: Bytes)
    ensures r <= s
  {
    if n <= 0 then [] else if n < |s| then s[..n] else s
  }

  /** A host that ignores `Range` answers 200 with the whole asset, and the client accepts it. */
  function Content(job: Job, offset: nat): Bytes {
    if offset == 0 || !job.honoursRange then job.asset
    else if offset <= |job.asset| then job.asset[offset..]
    else []
  }

  /** What of the content goes out under a Content-Length of `fileSize - offset`. */
  function Sent(job: Job, offset: nat): Bytes {
    var body, room := Content(job, offset), job.fileSize - offset;
    if |body| <= room then body
    else if job.transport == Cutting then Cut(body, room)
    else Cut(body, room / CHUNK_SIZE * CHUNK_SIZE)
  }

  /** A refusing client fails a request whose body is not as long as announced. */
  predicate Delivered(job: Job, offset: nat) {
    job.transport == Cutting || |Content(job, offset)| == job.fileSize - offset
  }

  /** The server takes the accepted bytes of a PUT at `offset` that extend what it holds. */
  function Store(job: Job, stored: Bytes, offset: nat, accepted: nat): Bytes {
    var taken := Cut(Sent(job, offset), accepted);
    if offset <= |stored| < offset + |taken| then stored + taken[|stored| - offset..] else stored
  }

  /** The answer to a PUT, if the request got as far as being answered. */
  function PutReply(job: Job, stored: Bytes, offset: nat, a: Answer): Reply {
    if Delivered(job, offset) then Answered(job, stored, a) else NoReply
  }

  // ----- One turn of the loop, and runs

  /** `failures` and `probes` count what happened; the code does not keep them. */
  datatype World = World(stored: Bytes, uploaded: nat, retries: nat, failures: nat, probes: nat)

  datatype Next = Running(world: World) | Done(world: World, result: Result)

  function Start(): World {
    World([], 0, 3, 0, 0)
  }

  function Try(job: Job, w: World, r: Round): (World, Attempt) {
    match r.fetch
    case Broken => (w, Raise(Network))
    case Refused(_) => (w, Raise(Api))
    case Served =>
      var w' := w.(stored := Store(job, w.stored, w.uploaded, r.accepted));
      (w', ReadPut(w.uploaded, PutReply(job, w'.stored, w.uploaded, r.put)))
  }

  function Settle(w: World, a: Attempt): Next {
    match a
    case Return(id) => Done(w, Uploaded(id))
    case Raise(e) => Done(w, Failed(e))
    case Continue(uploaded) => Running(w.(uploaded := uploaded))
  }

  function Recover(job: Job, w: World, r: Round): Next
    requires w.retries > 0
  {
    var w' := w.(retries := w.retries - 1, failures := w.failures + 1);
    if w'.retries == 0 then Done(w', Failed(Api))
    else Settle(w'.(probes := w.probes + 1), ReadProbe(w.uploaded, Answered(job, w.stored, r.probe)))
  }

  function Turn(job: Job, w: World, r: Round): Next
    requires w.retries > 0
  {
    var (w', a) := Try(job, w, r);
    if a.Raise? && Caught(a.error) then Recover(job, w', r) else Settle(w', a)
  }

  predicate Looping(job: Job, w: World) {
    w.uploaded < job.fileSize && w.retries > 0
  }

  /** The loop on a supply of rounds; Running when the supply ends before the loop does. */
  function Run(job: Job, w: World, rounds: seq<Round>): Next
    decreases |rounds|
  {
    if !Looping(job, w) then Done(w, Failed(Api))
    else if rounds == [] then Running(w)
    else
      match Turn(job, w, rounds[0])
      case Done(w', result) => Done(w', result)
      case Running(w') => Run(job, w', rounds[1..])
  }

  /** The request that opens the session: its answer, and whether it named an upload location. */
  datatype Opening = NoSession | Session(status: int, hasLocation: bool)

  function Upload(job: Job, opening: Opening, rounds: seq<Round>): Next {
    match opening
    case NoSession => Done(Start(), Failed(Network))
    case Session(status, hasLocation) =>
      if Classify(status).Some? then Done(Start(), Failed(Classify(status).value))
      else if !hasLocation then Done(Start(), Failed(Api))
      else Run(job, Start(), rounds)
  }

  lemma RunTakesTurn(job: Job, w: World, rounds: seq<Round>, i: nat)
    requires Looping(job, w) && i < |rounds|
    ensures Run(job, w, rounds[i..])
         == match Turn(job, w, rounds[i])
            case Done(w', result) => Done(w', result)
            case Running(w') => Run(job, w', rounds[i + 1..])
  {
    assert rounds[i..][1..] == rounds[i + 1..];
  }

  /** The caught failure that uses up the last retry. */
  lemma LastRetryFails(job: Job, head: World, rounds: seq<Round>, i: nat, tried: World, a: Attempt)
    requires Looping(job, head) && i < |rounds| && Try(job, head, rounds[i]) == (tried, a)
    requires a.Raise? && Caught(a.error) && tried.retries == 1
    ensures Run(job, head, rounds[i..]) == Done(tried.(retries := 0, failures := tried.failures + 1), Failed(Api))
  {
    RunTakesTurn(job, head, rounds, i);
  }

  /** The rest of the code has got from the try block to `w` and `attempt`: past the except block, or
      through it with the probe. */
  predicate Arrives(job: Job, r: Round, tried: World, a: Attempt, w: World, attempt: Attempt) {
    if a.Raise? && Caught(a.error) then
      && tried.retries > 1
      && w == tried.(retries := tried.retries - 1, failures := tried.failures + 1, probes := tried.probes + 1)
      && attempt == ReadProbe(w.uploaded, Answered(job, w.stored, r.probe))
    else
      w == tried && attempt == a
  }

  lemma TurnIsTaken(
    job: Job, head: World, rounds: seq<Round>, i: nat, tried: World, a: Attempt, w: World, attempt: Attempt)
    requires Looping(job, head) && i < |rounds| && Try(job, head, rounds[i]) == (tried, a)
    requires Arrives(job, rounds[i], tried, a, w, attempt)
    ensures Run(job, head, rounds[i..])
         == match attempt
            case Return(id) => Done(w, Uploaded(id))
            case Raise(e) => Done(w, Failed(e))
            case Continue(offset) => Run(job, w.(uploaded := offset), rounds[i + 1..])
  {
    RunTakesTurn(job, head, rounds, i);
    assert Turn(job, head, rounds[i]) == Settle(w, attempt);
  }

  method UploadVideo(job: Job, opening: Opening, rounds: seq<Round>) returns (next: Next)
    ensures next == Upload(job, opening, rounds)
  {
    match opening {
      case NoSession => return Done(Start(), Failed(Network));
      case Session(status, hasLocation) =>
        if Classify(status).Some? {
          return Done(Start(), Failed(Classify(status).value));
        }
        if !hasLocation {
          return Done(Start(), Failed(Api));
        }
        next := UploadContent(job, rounds);
    }
  }

  /** The loop, once the session is open. */
  method UploadContent(job: Job, rounds: seq<Round>) returns (next: Next)
    ensures next == Run(job, Start(), rounds)
  {
    var w := Start();
    ghost var answer := Run(job, w, rounds);
    var i := 0;
    while w.uploaded < job.fileSize && w.retries > 0
      invariant i <= |rounds|
      invariant answer == Run(job, w, rounds[i..])
      decreases |rounds| - i
    {
      if i == |rounds| {
        return Running(w);
      }
      ghost var head := w;
      var r := rounds[i];
      i := i + 1;
      // try:
      var attempt;
      match r.fetch {
        case Broken => attempt := Raise(Network);
        case Refused(_) => attempt := Raise(Api);
        case Served =>
          w := w.(stored := Store(job, w.stored, w.uploaded, r.accepted));
          attempt := ReadPut(w.uploaded, PutReply(job, w.stored, w.uploaded, r.put));
      }
      ghost var tried, a := w, attempt;
      assert Try(job, head, r) == (tried, a);
      // except:
      if attempt.Raise? && Caught(attempt.error) {
        w := w.(retries := w.retries - 1, failures := w.failures + 1);
        if w.retries == 0 {
          LastRetryFails(job, head, rounds, i - 1, tried, a);
          return Done(w, Failed(Api));
        }
        w := w.(probes := w.probes + 1);
        attempt := ReadProbe(w.uploaded, Answered(job, w.stored, r.probe));
      }
      TurnIsTaken(job, head, rounds, i - 1, tried, a, w, attempt);
      match attempt {
        case Return(id) => return Done(w, Uploaded(id));
        case Raise(e) => return Done(w, Failed(e));
        case Continue(offset) => w := w.(uploaded := offset);
      }
    }
    return Done(w, Failed(Api));
  }

  // ----- Data preservation

  /** The stored bytes are the beginning of the asset, the client never runs ahead of the server,
      and the server never holds more than the declared size. */
  ghost predicate Intact(job: Job, w: World) {
    w.stored <= job.asset && w.uploaded <= |w.stored| && (w.stored != [] ==> |w.stored| <= job.fileSize)
  }

  /** Success means the server holds exactly the declared bytes of the asset. */
  ghost predicate Preserved(job: Job, next: Next) {
    && Intact(job, next.world)
    && (next.Done? && next.result.Uploaded? ==>
          0 <= job.fileSize <= |job.asset| && next.world.stored == job.asset[..job.fileSize])
  }

  /** The asset host honours `Range`, or its whole-asset answers can do no harm: there is nothing to
      send, nothing to resume, or the client refuses the first chunk because the asset is too long. */
  predicate RangeSafe(fileSize: int, assetSize: nat, honoursRange: bool, transport: Transport) {
    || honoursRange
    || assetSize == 0
    || fileSize < 2
    || (transport == Refusing && fileSize <= assetSize && fileSize <= CHUNK_SIZE)
  }

  predicate Safe(job: Job) {
    RangeSafe(job.fileSize, |job.asset|, job.honoursRange, job.transport)
  }

  /** What a safe job sends at an offset is the asset from there on, as far as it goes. */
  lemma SafeJobSendsAsset(job: Job, offset: nat)
    requires Safe(job) && offset < job.fileSize && offset <= |job.asset|
    ensures Sent(job, offset) <= job.asset[offset..] && |Sent(job, offset)| <= job.fileSize - offset
  {
    var room := job.fileSize - offset;
    if offset > 0 && !job.honoursRange && |job.asset| > 0 {
      assert room / CHUNK_SIZE == 0;
    }
  }

  lemma StoreKeepsPrefix(job: Job, stored: Bytes, offset: nat, accepted: nat)
    requires Safe(job) && stored <= job.asset && offset <= |stored| && offset < job.fileSize
    requires stored != [] ==> |stored| <= job.fileSize
    ensures var s := Store(job, stored, offset, accepted);
            stored <= s <= job.asset && (s != [] ==> |s| <= job.fileSize)
  {
    SafeJobSendsAsset(job, offset);
  }

  /** The server's answers are honest: an offset they give is one it holds, and success is
      reported on the full size only. */
  predicate Sound(job: Job, stored: Bytes, uploaded: nat, a: Attempt) {
    match a
    case Continue(n) => n == uploaded || n == |stored| || n == 0
    case Return(_) => |stored| == job.fileSize
    case Raise(_) => true
  }

  lemma AnswersAreSound(job: Job, stored: Bytes, uploaded: nat, a: Answer)
    ensures Sound(job, stored, uploaded, ReadPut(uploaded, PutReply(job, stored, uploaded, a)))
    ensures Sound(job, stored, uploaded, ReadProbe(uploaded, Answered(job, stored, a)))
  {
  }

  lemma SettlePreserves(job: Job, w: World, a: Attempt)
    requires Intact(job, w) && Sound(job, w.stored, w.uploaded, a)
    ensures Preserved(job, Settle(w, a))
  {
  }

  lemma TryIsSound(job: Job, w: World, r: Round)
    ensures var (w', a) := Try(job, w, r);
            && Sound(job, w'.stored, w'.uploaded, a) && w' == w.(stored := w'.stored)
            && (w' == w || w'.stored == Store(job, w.stored, w.uploaded, r.accepted))
  {
    AnswersAreSound(job, Store(job, w.stored, w.uploaded, r.accepted), w.uploaded, r.put);
  }

  lemma TryKeepsIntact(job: Job, w: World, r: Round)
    requires Safe(job) && Intact(job, w) && Looping(job, w)
    ensures Intact(job, Try(job, w, r).0)
  {
    TryIsSound(job, w, r);
    StoreKeepsPrefix(job, w.stored, w.uploaded, r.accepted);
  }

  lemma TurnPreserves(job: Job, w: World, r: Round)
    requires Safe(job) && Intact(job, w) && Looping(job, w)
    ensures Preserved(job, Turn(job, w, r))
  {
    var (w', a) := Try(job, w, r);
    TryIsSound(job, w, r);
    TryKeepsIntact(job, w, r);
    if a.Raise? && Caught(a.error) {
      AnswersAreSound(job, w'.stored, w'.uploaded, r.probe);
      var probed := w'.(retries := w.retries - 1, failures := w.failures + 1, probes := w.probes + 1);
      SettlePreserves(job, probed, ReadProbe(w'.uploaded, Answered(job, w'.stored, r.probe)));
    } else {
      SettlePreserves(job, w', a);
    }
  }

  lemma {:induction false} RunPreserves(job: Job, w: World, rounds: seq<Round>)
    requires Safe(job) && Intact(job, w)
    ensures Preserved(job, Run(job, w, rounds))
    decreases |rounds|
  {
    if Looping(job, w) && rounds != [] {
      TurnPreserves(job, w, rounds[0]);
      var next := Turn(job, w, rounds[0]);
      if next.Running? {
        RunPreserves(job, next.world, rounds[1..]);
      }
    }
  }

  /** Every run of every upload from a host that honours `Range`, or where that does not matter. */
  lemma UploadPreservesData(job: Job, opening: Opening, rounds: seq<Round>)
    requires Safe(job)
    ensures Preserved(job, Upload(job, opening, rounds))
  {
    RunPreserves(job, Start(), rounds);
  }

  /** In this round the server takes one byte and says so, to the PUT or to the probe. */
  function OneByteRound(): Round {
    Round(Served, 1, Resume(false), Resume(false))
  }

  lemma OneByteTurn(job: Job, w: World)
    requires Looping(job, w) && w.uploaded == |w.stored| && w.retries >= 2 && Sent(job, w.uploaded) != []
    ensures var next := Turn(job, w, OneByteRound());
            && next.Running? && next.world.stored == w.stored + [Sent(job, w.uploaded)[0]]
            && next.world.uploaded == |next.world.stored| && next.world.retries >= w.retries - 1
  {
    var stored := Store(job, w.stored, w.uploaded, 1);
    assert stored == w.stored + [Sent(job, w.uploaded)[0]];
    assert Answered(job, stored, Resume(false)) == Reply(308, Last(|stored| - 1), NotJson);
  }

  function CorruptedAsset(n: nat): Bytes {
    seq(n, i => if i == 1 then 1 else 0)
  }

  /** Without `Range`, an unsafe job starts over from the asset's first byte at every offset. */
  lemma UnsafeJobStartsOver(job: Job, offset: nat)
    requires !Safe(job) && offset < 2
    ensures Sent(job, offset) != [] && Sent(job, offset)[0] == job.asset[0]
  {
    var room := job.fileSize - offset;
    if |job.asset| > room && job.transport == Refusing {
      assert room / CHUNK_SIZE >= 1;
    }
  }

  /** Two rounds corrupt an unsafe job: the first stores one byte, the second appends the asset's
      first byte where its second belongs. */
  lemma IgnoredRangeCorrupts(job: Job)
    requires !Safe(job) && job.asset == CorruptedAsset(|job.asset|)
    ensures Upload(job, Session(200, true), [OneByteRound(), OneByteRound()]).world.stored == [0, 0]
    ensures !Preserved(job, Upload(job, Session(200, true), [OneByteRound(), OneByteRound()]))
  {
    var w0 := Start();
    UnsafeJobStartsOver(job, 0);
    OneByteTurn(job, w0);
    var w1 := Turn(job, w0, OneByteRound()).world;
    UnsafeJobStartsOver(job, 1);
    OneByteTurn(job, w1);
    var w2 := Turn(job, w1, OneByteRound()).world;
    TwoTurns(job, w0, w1, w2, OneByteRound());
    assert w2.stored == [0, 0];
    assert |job.asset| > 1 ==> job.asset[1] == 1;
  }

  lemma TwoTurns(job: Job, w0: World, w1: World, w2: World, r: Round)
    requires Looping(job, w0) && Turn(job, w0, r) == Running(w1)
    requires Looping(job, w1) && Turn(job, w1, r) == Running(w2)
    ensures Run(job, w0, [r, r]).world == w2
  {
    assert [r, r][1..] == [r];
    assert Run(job, w0, [r, r]) == Run(job, w1, [r]);
    assert Run(job, w1, [r]) == Run(job, w2, []);
  }

  ghost predicate AlwaysPreserved(fileSize: int, assetSize: nat, honoursRange: bool, transport: Transport) {
    forall asset: Bytes, opening: Opening, rounds: seq<Round> | |asset| == assetSize ::
      PreservedOn(Job(asset, fileSize, honoursRange, transport), opening, rounds)
  }

  ghost predicate PreservedOn(job: Job, opening: Opening, rounds: seq<Round>) {
    Preserved(job, Upload(job, opening, rounds))
  }

  /** The exact condition: data survives every behaviour of the server if and only if the asset
      host honours `Range`, or what it sends instead can do no harm. */
  lemma PreservedExactlyWhenRangeIsSafe(fileSize: int, assetSize: nat, honoursRange: bool, transport: Transport)
    ensures AlwaysPreserved(fileSize, assetSize, honoursRange, transport)
       <==> RangeSafe(fileSize, assetSize, honoursRange, transport)
  {
    if RangeSafe(fileSize, assetSize, honoursRange, transport) {
      forall asset: Bytes, opening: Opening, rounds: seq<Round> | |asset| == assetSize
        ensures PreservedOn(Job(asset, fileSize, honoursRange, transport), opening, rounds)
      {
        UploadPreservesData(Job(asset, fileSize, honoursRange, transport), opening, rounds);
      }
    } else {
      var job := Job(CorruptedAsset(assetSize), fileSize, honoursRange, transport);
      IgnoredRangeCorrupts(job);
      assert !PreservedOn(job, Session(200, true), [OneByteRound(), OneByteRound()]);
    }
  }

  // ----- The client's offset against the server's bytes

  ghost predicate InStep(w: World) {
    w.uploaded == |w.stored|
  }

  /** The answer tells the client where the server is, if it lets it go on at all. */
  predicate Informative(a: Answer) {
    match a
    case Resume(hideRange) => !hideRange
    case Status(code) => code >= 400
    case _ => true
  }

  /** What the server holds once the round's PUT, if there is one, is over. */
  function Held(job: Job, w: World, r: Round): Bytes {
    if r.fetch == Served then Store(job, w.stored, w.uploaded, r.accepted) else w.stored
  }

  /** The PUT is made, and its answer lets the loop go on without a probe. */
  predicate PutGoesOn(job: Job, w: World, r: Round) {
    && r.fetch == Served && Delivered(job, w.uploaded)
    && match r.put
       case Truthful(_, _) => Held(job, w, r) != [] && |Held(job, w, r)| != job.fileSize
       case Resume(hideRange) => Held(job, w, r) != [] && !hideRange
       case Status(code) => code < 400
       case _ => false
  }

  /** The answer the next offset comes from. */
  function Deciding(job: Job, w: World, r: Round): Answer {
    if PutGoesOn(job, w, r) then r.put else r.probe
  }

  /** The deciding answer hides the range of bytes that are there, or it is a status below 400 that
      the code does not list while the server took new bytes. */
  predicate Misleads(job: Job, w: World, r: Round) {
    var a, held := Deciding(job, w, r), Held(job, w, r);
    (a == Resume(true) && held != []) || (a.Status? && a.code < 400 && |held| != |w.stored|)
  }

  lemma AnswersTellExactly(job: Job, stored: Bytes, uploaded: nat, a: Answer)
    ensures var p := ReadPut(uploaded, Answered(job, stored, a));
            p.Continue? ==> p.uploaded == if Informative(a) then |stored| else uploaded
    ensures var p := ReadProbe(uploaded, Answered(job, stored, a));
            p.Continue? ==> p.uploaded == if Informative(a) then |stored| else if a.Resume? then 0 else uploaded
  {
  }

  lemma PutGoesOnExactly(job: Job, w: World, r: Round)
    ensures PutGoesOn(job, w, r) <==> Try(job, w, r).1.Continue?
    ensures Try(job, w, r).0 == w.(stored := Held(job, w, r))
  {
  }

  /** What the client knows after a turn that goes on: the stored length if it was told, and else
      the offset it had, or zero from a probe. */
  lemma TurnTellsExactly(job: Job, w: World, r: Round)
    requires Looping(job, w) && Turn(job, w, r).Running?
    ensures var w', a := Turn(job, w, r).world, Deciding(job, w, r);
            && w'.stored == Held(job, w, r)
            && w'.uploaded == if Informative(a) then |w'.stored| else if a.Resume? then 0 else w.uploaded
  {
    PutGoesOnExactly(job, w, r);
    AnswersTellExactly(job, Held(job, w, r), w.uploaded, Deciding(job, w, r));
  }

  /** One turn loses the server's position exactly when it misleads. */
  lemma TurnStaysInStep(job: Job, w: World, r: Round)
    requires Looping(job, w) && InStep(w)
    requires Turn(job, w, r).Running?
    ensures InStep(Turn(job, w, r).world) <==> !Misleads(job, w, r)
  {
    TurnTellsExactly(job, w, r);
  }

  /** A client that lost the position does not notice: the loop goes on. */
  lemma MisledClientLoops(job: Job, w: World, r: Round)
    requires Looping(job, w) && Turn(job, w, r).Running? && Misleads(job, w, r)
    ensures Looping(job, Turn(job, w, r).world)
  {
    TurnTellsExactly(job, w, r);
    RetriesLast(job, w, r);
  }

  lemma RetriesLast(job: Job, w: World, r: Round)
    requires w.retries > 0 && Turn(job, w, r).Running?
    ensures Turn(job, w, r).world.retries > 0
  {
  }

  /** What one more round makes of a run. */
  function Onward(job: Job, next: Next, r: Round): Next {
    if next.Done? || !Looping(job, next.world) then next
    else
      match Turn(job, next.world, r)
      case Done(w, result) => Done(w, result)
      case Running(w) => if Looping(job, w) then Running(w) else Done(w, Failed(Api))
  }

  lemma {:induction false} RunOnward(job: Job, w: World, rounds: seq<Round>, r: Round)
    ensures Run(job, w, rounds + [r]) == Onward(job, Run(job, w, rounds), r)
    ensures Run(job, w, rounds).Running? ==> Looping(job, Run(job, w, rounds).world)
    decreases |rounds|
  {
    if Looping(job, w) {
      if rounds == [] {
        assert (rounds + [r])[1..] == [];
      } else {
        assert (rounds + [r])[1..] == rounds[1..] + [r];
        if Turn(job, w, rounds[0]).Running? {
          RunOnward(job, Turn(job, w, rounds[0]).world, rounds[1..], r);
        }
      }
    }
  }

  ghost predicate HeadInStep(next: Next) {
    next.Running? ==> InStep(next.world)
  }

  /** At every loop head of the run the offset is the stored length. */
  ghost predicate InStepThroughout(job: Job, w: World, rounds: seq<Round>) {
    forall n: nat | n <= |rounds| :: HeadInStep(Run(job, w, rounds[..n]))
  }

  /** The round is played, does not end the run, and misleads the client. */
  predicate MisleadsAt(job: Job, next: Next, r: Round) {
    && next.Running? && Looping(job, next.world)
    && Turn(job, next.world, r).Running? && Misleads(job, next.world, r)
  }

  ghost predicate NoTurnMisleads(job: Job, w: World, rounds: seq<Round>) {
    forall n: nat | n < |rounds| :: !MisleadsAt(job, Run(job, w, rounds[..n]), rounds[n])
  }

  lemma NextHead(job: Job, w: World, rounds: seq<Round>, n: nat)
    requires n < |rounds| && HeadInStep(Run(job, w, rounds[..n]))
    ensures HeadInStep(Run(job, w, rounds[..n + 1])) <==> !MisleadsAt(job, Run(job, w, rounds[..n]), rounds[n])
  {
    var head, r := Run(job, w, rounds[..n]), rounds[n];
    assert rounds[..n + 1] == rounds[..n] + [r];
    RunOnward(job, w, rounds[..n], r);
    if head.Running? && Turn(job, head.world, r).Running? {
      TurnStaysInStep(job, head.world, r);
      if Misleads(job, head.world, r) {
        MisledClientLoops(job, head.world, r);
      }
    }
  }

  lemma {:induction false} InStepUnlessMisled(job: Job, w: World, rounds: seq<Round>, n: nat)
    requires InStep(w) && NoTurnMisleads(job, w, rounds) && n <= |rounds|
    ensures HeadInStep(Run(job, w, rounds[..n]))
  {
    if n > 0 {
      InStepUnlessMisled(job, w, rounds, n - 1);
      NextHead(job, w, rounds, n - 1);
    }
  }

  /** Main result: the client knows the server's position at every loop head of a run if and only if
      no turn that goes on misleads it. */
  lemma OffsetFollowsExactly(job: Job, w: World, rounds: seq<Round>)
    requires InStep(w)
    ensures InStepThroughout(job, w, rounds) <==> NoTurnMisleads(job, w, rounds)
  {
    if NoTurnMisleads(job, w, rounds) {
      forall n: nat | n <= |rounds| ensures HeadInStep(Run(job, w, rounds[..n])) {
        InStepUnlessMisled(job, w, rounds, n);
      }
    }
    if InStepThroughout(job, w, rounds) {
      forall n: nat | n < |rounds| ensures !MisleadsAt(job, Run(job, w, rounds[..n]), rounds[n]) {
        assert HeadInStep(Run(job, w, rounds[..n])) && HeadInStep(Run(job, w, rounds[..n + 1]));
        NextHead(job, w, rounds, n);
      }
    }
  }

  /** Both ways to mislead happen in the first turn: one byte is stored, and an answer 204 or a probe
      without `Range` leaves the offset at zero. */
  lemma FirstTurnCanMislead(job: Job)
    requires 0 < job.fileSize == |job.asset|
    ensures var drifted := Running(World(job.asset[..1], 0, 3, 0, 0));
            Run(job, Start(), [Round(Served, 1, Status(204), Lost)]) == drifted && !HeadInStep(drifted)
    ensures var drifted := Running(World(job.asset[..1], 0, 2, 1, 1));
            Run(job, Start(), [Round(Served, 1, Lost, Resume(true))]) == drifted && !HeadInStep(drifted)
  {
    assert Store(job, [], 0, 1) == job.asset[..1];
    FirstRound(job, Round(Served, 1, Status(204), Lost));
    FirstRound(job, Round(Served, 1, Lost, Resume(true)));
  }

  lemma FirstRound(job: Job, r: Round)
    requires job.fileSize > 0
    ensures Run(job, Start(), [r]) == Onward(job, Running(Start()), r)
  {
    RunOnward(job, Start(), [], r);
    assert [] + [r] == [r];
  }

  /** The PUT's answer may hide its range: the client then asks again. Only the probe's may not, and
      neither may be a status below 400 that the code does not list. */
  predicate Telling(r: Round) {
    (r.put.Status? ==> r.put.code >= 400) && Informative(r.probe)
  }

  lemma TellingNeverMisleads(job: Job, w: World, r: Round)
    requires Telling(r)
    ensures !Misleads(job, w, r)
  {
  }

  lemma {:induction false} RunStaysInStep(job: Job, w: World, rounds: seq<Round>)
    requires InStep(w)
    requires forall i | 0 <= i < |rounds| :: Telling(rounds[i])
    ensures Run(job, w, rounds).Running? ==> InStep(Run(job, w, rounds).world)
    decreases |rounds|
  {
    if Looping(job, w) && rounds != [] {
      var next := Turn(job, w, rounds[0]);
      if next.Running? {
        TellingNeverMisleads(job, w, rounds[0]);
        TurnStaysInStep(job, w, rounds[0]);
        RunStaysInStep(job, next.world, rounds[1..]);
      }
    }
  }

  // ----- What an upload reports

  /** The PUT was made and answered. */
  predicate PutAnswered(job: Job, w: World, r: Round) {
    r.fetch == Served && Delivered(job, w.uploaded)
  }

  /** The server holds the whole file after the PUT and says so, with the video's id. */
  predicate PutAccepted(job: Job, w: World, r: Round, id: Option<string>) {
    && PutAnswered(job, w, r) && |Held(job, w, r)| == job.fileSize
    && r.put.Truthful? && r.put.body == Json(id) && id != None && id != Some("")
  }

  /** The PUT ends in an error: by what the asset host, the connection and the server chose. */
  predicate PutRaises(job: Job, w: World, r: Round, e: Error) {
    var full := |Held(job, w, r)| == job.fileSize;
    match e
    case Network => r.fetch == Broken || (r.fetch == Served && (!Delivered(job, w.uploaded) || r.put == Lost))
    case Auth => PutAnswered(job, w, r) && (r.put == Status(401) || r.put == Status(403))
    case Quota => PutAnswered(job, w, r) && r.put == Status(429)
    case Malformed => PutAnswered(job, w, r) && (r.put == Garbled || (r.put.Truthful? && full && r.put.body == NotJson))
    case Api =>
      || r.fetch.Refused?
      || (PutAnswered(job, w, r) && match r.put
          case Status(code) => code >= 400 && code !in {401, 403, 429}
          case Truthful(_, body) => if full then body == Json(None) || body == Json(Some("")) else Held(job, w, r) == []
          case Resume(hideRange) => hideRange || Held(job, w, r) == []
          case _ => false)
  }

  /** An error of the PUT that the loop catches, and so asks the server where it is. */
  predicate PutCaught(job: Job, w: World, r: Round) {
    PutRaises(job, w, r, Network) || PutRaises(job, w, r, Api) || PutRaises(job, w, r, Quota)
  }

  /** The server holds the whole file and says so to the probe. The id is not checked. */
  predicate ProbeAccepted(job: Job, w: World, r: Round, id: Option<string>) {
    |Held(job, w, r)| == job.fileSize && r.probe.Truthful? && r.probe.body == Json(id)
  }

  predicate ProbeRaises(job: Job, w: World, r: Round, e: Error) {
    match e
    case Network => r.probe == Lost
    case Auth => r.probe == Status(401) || r.probe == Status(403)
    case Quota => r.probe == Status(429)
    case Malformed =>
      r.probe == Garbled || (r.probe.Truthful? && r.probe.body == NotJson && |Held(job, w, r)| == job.fileSize)
    case Api => r.probe.Status? && r.probe.code >= 400 && r.probe.code !in {401, 403, 429}
  }

  /** The turn reports success, with this id. */
  predicate Succeeds(job: Job, w: World, r: Round, id: Option<string>) {
    PutAccepted(job, w, r, id) || (PutCaught(job, w, r) && w.retries > 1 && ProbeAccepted(job, w, r, id))
  }

  /** The turn raises: an error that is not caught, the last retry used up, or an error of the probe. */
  predicate Fails(job: Job, w: World, r: Round, e: Error) {
    || ((e == Auth || e == Malformed) && PutRaises(job, w, r, e))
    || (PutCaught(job, w, r) && if w.retries > 1 then ProbeRaises(job, w, r, e) else e == Api)
  }

  lemma PutSucceedsExactly(job: Job, w: World, r: Round, id: Option<string>)
    ensures Try(job, w, r).1 == Return(id) <==> PutAccepted(job, w, r, id)
  {
  }

  lemma PutRaisesExactly(job: Job, w: World, r: Round, e: Error)
    ensures Try(job, w, r).1 == Raise(e) <==> PutRaises(job, w, r, e)
  {
    if PutAnswered(job, w, r) {
      AnsweredPutRaisesExactly(job, w, r, e);
    }
  }

  lemma AnsweredPutRaisesExactly(job: Job, w: World, r: Round, e: Error)
    requires PutAnswered(job, w, r)
    ensures ReadPut(w.uploaded, Answered(job, Held(job, w, r), r.put)) == Raise(e) <==> PutRaises(job, w, r, e)
  {
    match r.put
    case Truthful(_, body) =>
    case Resume(_) =>
    case Status(_) =>
    case Lost =>
    case Garbled =>
  }

  lemma PutReportsExactly(job: Job, w: World, r: Round, id: Option<string>, e: Error)
    ensures Try(job, w, r).1 == Return(id) <==> PutAccepted(job, w, r, id)
    ensures Try(job, w, r).1 == Raise(e) <==> PutRaises(job, w, r, e)
  {
    PutSucceedsExactly(job, w, r, id);
    PutRaisesExactly(job, w, r, e);
  }

  lemma ProbeReportsExactly(job: Job, w: World, r: Round, id: Option<string>, e: Error)
    ensures var a := ReadProbe(w.uploaded, Answered(job, Held(job, w, r), r.probe));
            (a == Return(id) <==> ProbeAccepted(job, w, r, id)) && (a == Raise(e) <==> ProbeRaises(job, w, r, e))
  {
  }

  lemma CaughtExactly(job: Job, w: World, r: Round)
    ensures var a := Try(job, w, r).1;
            (a.Raise? && Caught(a.error)) <==> PutCaught(job, w, r)
  {
    var a := Try(job, w, r).1;
    if a.Raise? {
      PutReportsExactly(job, w, r, None, a.error);
    }
    PutReportsExactly(job, w, r, None, Network);
    PutReportsExactly(job, w, r, None, Api);
    PutReportsExactly(job, w, r, None, Quota);
  }

  /** One turn reports success with an id, or an error, exactly when server and host made it so. */
  lemma TurnReportsExactly(job: Job, w: World, r: Round, id: Option<string>, e: Error)
    requires w.retries > 0
    ensures var next := Turn(job, w, r);
            && (next.Done? && next.result == Uploaded(id) <==> Succeeds(job, w, r, id))
            && (next.Done? && next.result == Failed(e) <==> Fails(job, w, r, e))
  {
    PutReportsExactly(job, w, r, id, e);
    ProbeReportsExactly(job, w, r, id, e);
    CaughtExactly(job, w, r);
    PutGoesOnExactly(job, w, r);
  }

  /** The probe's answer lets the loop go on. */
  predicate ProbeGoesOn(job: Job, w: World, r: Round) {
    match r.probe
    case Status(code) => code < 400
    case Resume(_) => true
    case Truthful(_, _) => |Held(job, w, r)| != job.fileSize
    case _ => false
  }

  /** The turn ends with an offset. */
  predicate GoesOn(job: Job, w: World, r: Round) {
    PutGoesOn(job, w, r) || (PutCaught(job, w, r) && w.retries > 1 && ProbeGoesOn(job, w, r))
  }

  lemma TurnGoesOnExactly(job: Job, w: World, r: Round)
    requires w.retries > 0
    ensures Turn(job, w, r).Running? <==> GoesOn(job, w, r)
  {
    CaughtExactly(job, w, r);
    PutGoesOnExactly(job, w, r);
  }

  /** A 308 reports that the server holds everything: the loop is over, and no id was seen. */
  predicate EndsWithoutId(job: Job, w: World, r: Round) {
    GoesOn(job, w, r) && Informative(Deciding(job, w, r)) && |Held(job, w, r)| >= job.fileSize
  }

  lemma LoopEndsExactly(job: Job, w: World, r: Round)
    requires Looping(job, w)
    ensures (Turn(job, w, r).Running? && !Looping(job, Turn(job, w, r).world)) <==> EndsWithoutId(job, w, r)
  {
    TurnGoesOnExactly(job, w, r);
    if Turn(job, w, r).Running? {
      TurnTellsExactly(job, w, r);
      RetriesLast(job, w, r);
    }
  }

  /** The session request was answered below 400 and named where to upload. */
  predicate Opened(opening: Opening) {
    opening.Session? && opening.status < 400 && opening.hasLocation
  }

  predicate OpeningFails(opening: Opening, e: Error) {
    match e
    case Network => opening.NoSession?
    case Auth => opening.Session? && opening.status in {401, 403}
    case Quota => opening.Session? && opening.status == 429
    case Api =>
      opening.Session? && if opening.status < 400 then !opening.hasLocation else opening.status !in {401, 403, 429}
    case Malformed => false
  }

  predicate SucceedsAt(job: Job, next: Next, r: Round, id: Option<string>) {
    next.Running? && Succeeds(job, next.world, r, id)
  }

  predicate FailsAt(job: Job, next: Next, r: Round, e: Error) {
    next.Running? && (Fails(job, next.world, r, e) || (e == Api && EndsWithoutId(job, next.world, r)))
  }

  ghost predicate SomeTurnSucceeds(job: Job, w: World, rounds: seq<Round>, id: Option<string>) {
    exists n: nat | n < |rounds| :: SucceedsAt(job, Run(job, w, rounds[..n]), rounds[n], id)
  }

  ghost predicate SomeTurnFails(job: Job, w: World, rounds: seq<Round>, e: Error) {
    exists n: nat | n < |rounds| :: FailsAt(job, Run(job, w, rounds[..n]), rounds[n], e)
  }

  predicate Reports(next: Next, result: Result) {
    next.Done? && next.result == result
  }

  lemma SuccessStep(job: Job, w: World, before: seq<Round>, r: Round, id: Option<string>)
    ensures SomeTurnSucceeds(job, w, before + [r], id)
       <==> SomeTurnSucceeds(job, w, before, id) || SucceedsAt(job, Run(job, w, before), r, id)
  {
    var rounds := before + [r];
    assert rounds[..|before|] == before;
    assert forall n: nat | n < |before| :: rounds[..n] == before[..n] && rounds[n] == before[n];
    if n: nat :| n < |before| && SucceedsAt(job, Run(job, w, before[..n]), before[n], id) {
      assert SucceedsAt(job, Run(job, w, rounds[..n]), rounds[n], id);
    }
    if SucceedsAt(job, Run(job, w, before), r, id) {
      assert SucceedsAt(job, Run(job, w, rounds[..|before|]), rounds[|before|], id);
    }
  }

  lemma FailureStep(job: Job, w: World, before: seq<Round>, r: Round, e: Error)
    ensures SomeTurnFails(job, w, before + [r], e)
       <==> SomeTurnFails(job, w, before, e) || FailsAt(job, Run(job, w, before), r, e)
  {
    var rounds := before + [r];
    assert rounds[..|before|] == before;
    assert forall n: nat | n < |before| :: rounds[..n] == before[..n] && rounds[n] == before[n];
    if n: nat :| n < |before| && FailsAt(job, Run(job, w, before[..n]), before[n], e) {
      assert FailsAt(job, Run(job, w, rounds[..n]), rounds[n], e);
    }
    if FailsAt(job, Run(job, w, before), r, e) {
      assert FailsAt(job, Run(job, w, rounds[..|before|]), rounds[|before|], e);
    }
  }

  /** One more round reports what that turn reports. */
  lemma OnwardReportsExactly(job: Job, next: Next, r: Round, id: Option<string>, e: Error)
    requires next.Running? ==> Looping(job, next.world)
    ensures Reports(Onward(job, next, r), Uploaded(id)) <==> Reports(next, Uploaded(id)) || SucceedsAt(job, next, r, id)
    ensures Reports(Onward(job, next, r), Failed(e)) <==> Reports(next, Failed(e)) || FailsAt(job, next, r, e)
  {
    if next.Running? {
      TurnReportsExactly(job, next.world, r, id, e);
      LoopEndsExactly(job, next.world, r);
    }
  }

  lemma {:induction false} RunReportsExactly(job: Job, w: World, rounds: seq<Round>, id: Option<string>, e: Error)
    requires Looping(job, w)
    ensures Reports(Run(job, w, rounds), Uploaded(id)) <==> SomeTurnSucceeds(job, w, rounds, id)
    ensures Reports(Run(job, w, rounds), Failed(e)) <==> SomeTurnFails(job, w, rounds, e)
    decreases |rounds|
  {
    if rounds != [] {
      var before, r := rounds[..|rounds| - 1], rounds[|rounds| - 1];
      assert rounds == before + [r];
      RunReportsExactly(job, w, before, id, e);
      RunOnward(job, w, before, r);
      OnwardReportsExactly(job, Run(job, w, before), r, id, e);
      SuccessStep(job, w, before, r, id);
      FailureStep(job, w, before, r, e);
    }
  }

  /** Main result: an upload ends with an id if and only if the server, holding the whole file, gave
      that id to a PUT or to a probe; and it raises an error if and only if the opening did, there was
      nothing to send, or some turn did. */
  lemma UploadReportsExactly(job: Job, opening: Opening, rounds: seq<Round>, id: Option<string>, e: Error)
    ensures Reports(Upload(job, opening, rounds), Uploaded(id))
       <==> Opened(opening) && job.fileSize > 0 && SomeTurnSucceeds(job, Start(), rounds, id)
    ensures Reports(Upload(job, opening, rounds), Failed(e))
       <==> || OpeningFails(opening, e)
            || (Opened(opening) && if job.fileSize > 0 then SomeTurnFails(job, Start(), rounds, e) else e == Api)
  {
    if job.fileSize > 0 {
      RunReportsExactly(job, Start(), rounds, id, e);
    }
  }

  // ----- An honest upload succeeds

  /** The server takes so many bytes in each round and tells the truth. */
  function HonestRounds(pieces: seq<nat>, id: string): (rounds: seq<Round>)
    ensures |rounds| == |pieces|
  {
    if pieces == [] then []
    else [HonestRound(pieces[0], id)] + HonestRounds(pieces[1..], id)
  }

  function Total(pieces: seq<nat>): nat {
    if pieces == [] then 0 else pieces[0] + Total(pieces[1..])
  }

  /** The client knows what the server holds, and that is the beginning of the asset. */
  ghost predicate HonestHead(job: Job, w: World) {
    && job.honoursRange && job.fileSize == |job.asset| && Looping(job, w)
    && w.uploaded <= |job.asset| && w.stored == job.asset[..w.uploaded]
  }

  lemma HonestStore(job: Job, w: World, accepted: nat)
    requires HonestHead(job, w)
    ensures Delivered(job, w.uploaded)
    ensures var n := w.uploaded + accepted;
            Store(job, w.stored, w.uploaded, accepted) == if n < job.fileSize then job.asset[..n] else job.asset
  {
    var rest, n := job.asset[w.uploaded..], w.uploaded + accepted;
    assert Sent(job, w.uploaded) == rest;
    if n < job.fileSize {
      assert job.asset[..w.uploaded] + rest[..accepted] == job.asset[..n];
    } else {
      assert job.asset[..w.uploaded] + rest == job.asset;
    }
  }

  function HonestRound(accepted: nat, id: string): Round {
    Round(Served, accepted, Truthful(true, Json(Some(id))), Lost)
  }

  lemma HonestTry(job: Job, w: World, accepted: nat, id: string)
    requires HonestHead(job, w)
    ensures var n := w.uploaded + accepted;
            var stored := if n < job.fileSize then job.asset[..n] else job.asset;
            Try(job, w, HonestRound(accepted, id))
              == (w.(stored := stored), ReadPut(w.uploaded, Answered(job, stored, Truthful(true, Json(Some(id))))))
  {
    HonestStore(job, w, accepted);
  }

  lemma PartTurn(job: Job, w: World, accepted: nat, id: string)
    requires HonestHead(job, w) && accepted > 0 && w.uploaded + accepted < job.fileSize
    ensures var n := w.uploaded + accepted;
            Turn(job, w, HonestRound(accepted, id)) == Running(w.(stored := job.asset[..n], uploaded := n))
  {
    var n := w.uploaded + accepted;
    HonestTry(job, w, accepted, id);
    assert Answered(job, job.asset[..n], Truthful(true, Json(Some(id)))) == Reply(308, Last(n - 1), NotJson);
  }

  lemma LastTurn(job: Job, w: World, accepted: nat, id: string)
    requires HonestHead(job, w) && w.uploaded + accepted >= job.fileSize && id != ""
    ensures Turn(job, w, HonestRound(accepted, id)) == Done(w.(stored := job.asset), Uploaded(Some(id)))
  {
    HonestTry(job, w, accepted, id);
    assert Answered(job, job.asset, Truthful(true, Json(Some(id)))) == Reply(201, Absent, Json(Some(id)));
  }

  lemma PartRun(job: Job, w: World, accepted: nat, id: string, rest: seq<Round>) returns (w': World)
    requires HonestHead(job, w) && accepted > 0 && w.uploaded + accepted < job.fileSize
    ensures HonestHead(job, w') && w'.uploaded == w.uploaded + accepted
    ensures Run(job, w, [HonestRound(accepted, id)] + rest) == Run(job, w', rest)
  {
    var n := w.uploaded + accepted;
    w' := w.(stored := job.asset[..n], uploaded := n);
    PartTurn(job, w, accepted, id);
    assert ([HonestRound(accepted, id)] + rest)[1..] == rest;
  }

  lemma LastRun(job: Job, w: World, accepted: nat, id: string, rest: seq<Round>)
    requires HonestHead(job, w) && w.uploaded + accepted >= job.fileSize && id != ""
    ensures Run(job, w, [HonestRound(accepted, id)] + rest) == Done(w.(stored := job.asset), Uploaded(Some(id)))
  {
    LastTurn(job, w, accepted, id);
  }

  predicate AllPositive(pieces: seq<nat>) {
    forall i | 0 <= i < |pieces| :: pieces[i] > 0
  }

  /** The run has ended with this id, and the server holds the asset. */
  ghost predicate Stored(job: Job, end: Next, id: string) {
    Reports(end, Uploaded(Some(id))) && end.world.stored == job.asset
  }

  lemma {:induction false} HonestRun(job: Job, w: World, pieces: seq<nat>, id: string)
    requires HonestHead(job, w) && id != "" && AllPositive(pieces) && Total(pieces) >= job.fileSize - w.uploaded
    ensures Stored(job, Run(job, w, HonestRounds(pieces, id)), id)
    decreases |pieces|
  {
    var rest := pieces[1..];
    if w.uploaded + pieces[0] < job.fileSize {
      var w' := PartRun(job, w, pieces[0], id, HonestRounds(rest, id));
      HonestRun(job, w', rest, id);
    } else {
      LastRun(job, w, pieces[0], id, HonestRounds(rest, id));
    }
  }

  /** Whatever the pieces in which it takes the file, an upload to an honest server ends with the
      server's id, and the server holds the asset. */
  lemma HonestUploadSucceeds(job: Job, pieces: seq<nat>, id: string)
    requires job.honoursRange && job.fileSize == |job.asset| > 0 && id != ""
    requires Total(pieces) >= job.fileSize && AllPositive(pieces)
    ensures Stored(job, Upload(job, Session(200, true), HonestRounds(pieces, id)), id)
  {
    HonestRun(job, Start(), pieces, id);
  }

  /** An upload can be complete and fail: the server holds everything, and says so with a 308. */
  lemma CompleteUploadCanFail(job: Job)
    requires job.honoursRange && job.fileSize == |job.asset| > 0
    ensures var end := Upload(job, Session(200, true), [Round(Served, job.fileSize, Resume(false), Lost)]);
            Reports(end, Failed(Api)) && end.world.stored == job.asset
  {
    var r := Round(Served, job.fileSize, Resume(false), Lost);
    HonestStore(job, Start(), job.fileSize);
    FirstRound(job, r);
    LoopEndsExactly(job, Start(), r);
  }

  // ----- The retry budget

  /** At most three failures are caught and at most two probes sent, whatever the server does. */
  lemma RetryBudget(job: Job, opening: Opening, rounds: seq<Round>)
    ensures var e := Upload(job, opening, rounds).world;
            e.failures == 3 - e.retries && e.failures <= 3 && e.probes <= 2
  {
    RunBudget(job, Start(), rounds);
  }

  lemma {:induction false} RunBudget(job: Job, w: World, rounds: seq<Round>)
    requires w.retries <= 3 && w.failures == 3 - w.retries && w.probes == w.failures && w.failures <= 2
    ensures var e := Run(job, w, rounds).world;
            e.failures == 3 - e.retries && e.failures <= 3 && e.probes <= 2
    decreases |rounds|
  {
    if Looping(job, w) && rounds != [] {
      var next := Turn(job, w, rounds[0]);
      if next.Running? {
        RunBudget(job, next.world, rounds[1..]);
      }
    }
  }

  // ----- Termination

  ghost predicate Advances(w: World, w': World) {
    w'.retries < w.retries || (w'.retries == w.retries && w'.uploaded > w.uploaded)
  }

  predicate SaysNothingNew(job: Job, stored: Bytes, uploaded: nat, put: Answer) {
    match put
    case Status(code) => code < 400
    case Resume(hideRange) => !hideRange && 0 < |stored| <= uploaded
    case Truthful(_, _) => |stored| != job.fileSize && 0 < |stored| <= uploaded
    case _ => false
  }

  /** The asset was served, the PUT went through, and its answer was a status below 400 that the
      code does not list, or a 308 that reports no new byte. */
  predicate Stalls(job: Job, w: World, r: Round) {
    && r.fetch == Served && Delivered(job, w.uploaded)
    && SaysNothingNew(job, Store(job, w.stored, w.uploaded, r.accepted), w.uploaded, r.put)
  }

  lemma NothingNewExactly(job: Job, stored: Bytes, uploaded: nat, put: Answer)
    ensures var a := ReadPut(uploaded, Answered(job, stored, put));
            SaysNothingNew(job, stored, uploaded, put) <==> a.Continue? && a.uploaded <= uploaded
  {
  }

  lemma RecoveryUsesARetry(job: Job, w: World, r: Round)
    requires w.retries > 0
    ensures Recover(job, w, r).world.retries == w.retries - 1
  {
  }

  /** A stalled turn is exactly one that goes on without advancing. */
  lemma StallsExactly(job: Job, w: World, r: Round)
    requires Looping(job, w)
    ensures var next := Turn(job, w, r);
            (next.Running? && !Advances(w, next.world)) <==> Stalls(job, w, r)
  {
    var (w', a) := Try(job, w, r);
    RecoveryUsesARetry(job, w', r);
    if r.fetch == Served {
      NothingNewExactly(job, w'.stored, w.uploaded, r.put);
    }
  }

  /** The client never runs ahead of the server, whatever the host sends. */
  predicate Behind(w: World) {
    w.uploaded <= |w.stored|
  }

  lemma TurnStaysBehind(job: Job, w: World, r: Round)
    requires Looping(job, w) && Behind(w) && Turn(job, w, r).Running?
    ensures Behind(Turn(job, w, r).world)
  {
    var (w', a) := Try(job, w, r);
    TryIsSound(job, w, r);
    if a.Raise? {
      AnswersAreSound(job, w'.stored, w.uploaded, r.probe);
    }
  }

  lemma TurnUsesOneRetry(job: Job, w: World, r: Round)
    requires Looping(job, w)
    ensures w.retries - 1 <= Turn(job, w, r).world.retries <= w.retries
  {
    RecoveryUsesARetry(job, Try(job, w, r).0, r);
  }

  lemma StalledAnswerKeepsOffset(job: Job, stored: Bytes, uploaded: nat, put: Answer)
    requires SaysNothingNew(job, stored, uploaded, put) && uploaded <= |stored|
    ensures ReadPut(uploaded, Answered(job, stored, put)) == Continue(uploaded)
  {
  }

  lemma StalledTurnKeepsOffset(job: Job, w: World, r: Round)
    requires Looping(job, w) && Behind(w) && Stalls(job, w, r)
    ensures Turn(job, w, r) == Running(w.(stored := Store(job, w.stored, w.uploaded, r.accepted)))
  {
    var w' := w.(stored := Store(job, w.stored, w.uploaded, r.accepted));
    StalledAnswerKeepsOffset(job, w'.stored, w.uploaded, r.put);
    assert Try(job, w, r) == (w', Continue(w.uploaded));
  }

  /** How many turns of a run stall. */
  ghost function StalledTurns(job: Job, w: World, rounds: seq<Round>): nat
    decreases |rounds|
  {
    if !Looping(job, w) || rounds == [] then 0
    else
      var next := Turn(job, w, rounds[0]);
      (if Stalls(job, w, rounds[0]) then 1 else 0)
      + (if next.Running? then StalledTurns(job, next.world, rounds[1..]) else 0)
  }

  /** The lexicographic measure (retries, bytes left) as one number. */
  function TurnsLeft(job: Job, w: World): int {
    (w.retries - 1) * (job.fileSize + 1) + job.fileSize - w.uploaded
  }

  lemma TurnsLeftDecreases(job: Job, w: World, w': World)
    requires Looping(job, w) && Looping(job, w') && Advances(w, w') && w.retries <= w'.retries + 1
    ensures 0 <= TurnsLeft(job, w') < TurnsLeft(job, w)
  {
    if w'.retries < w.retries {
      assert (w.retries - 1) * (job.fileSize + 1) == (w'.retries - 1) * (job.fileSize + 1) + (job.fileSize + 1);
    }
    assert 0 <= (w'.retries - 1) * (job.fileSize + 1);
  }

  lemma TurnsLeftIsNatural(job: Job, w: World)
    requires Looping(job, w)
    ensures 0 <= TurnsLeft(job, w)
  {
    assert 0 <= (w.retries - 1) * (job.fileSize + 1);
  }

  /** Every turn of a run that has not ended either stalled or used up some of the measure. */
  lemma {:induction false} TurnsAreStalledOrPaid(job: Job, w: World, rounds: seq<Round>)
    requires Looping(job, w) && Behind(w) && Run(job, w, rounds).Running?
    ensures |rounds| <= StalledTurns(job, w, rounds) + TurnsLeft(job, w)
    decreases |rounds|
  {
    TurnsLeftIsNatural(job, w);
    if rounds != [] {
      var w' := Turn(job, w, rounds[0]).world;
      TurnStaysBehind(job, w, rounds[0]);
      TurnUsesOneRetry(job, w, rounds[0]);
      StallsExactly(job, w, rounds[0]);
      if Stalls(job, w, rounds[0]) {
        StalledTurnKeepsOffset(job, w, rounds[0]);
      }
      TurnsAreStalledOrPaid(job, w', rounds[1..]);
      if !Stalls(job, w, rounds[0]) {
        TurnsLeftDecreases(job, w, w');
      }
    }
  }

  /** For every server and host, an upload that has not ended has made at most 3 * file_size + 2
      turns besides those that stalled. */
  lemma UnfinishedUploadStalls(job: Job, opening: Opening, rounds: seq<Round>)
    requires Upload(job, opening, rounds).Running?
    ensures |rounds| <= StalledTurns(job, Start(), rounds) + 3 * job.fileSize + 2
  {
    TurnsAreStalledOrPaid(job, Start(), rounds);
    assert TurnsLeft(job, Start()) == 3 * job.fileSize + 2;
  }

  lemma {:induction false} StallsAreTurns(job: Job, w: World, rounds: seq<Round>)
    ensures StalledTurns(job, w, rounds) <= |rounds|
    decreases |rounds|
  {
    if Looping(job, w) && rounds != [] && Turn(job, w, rounds[0]).Running? {
      StallsAreTurns(job, Turn(job, w, rounds[0]).world, rounds[1..]);
    }
  }

  /** Rounds after the end of a run are not looked at. */
  lemma {:induction false} EndedRunsStallNoMore(job: Job, w: World, rounds: seq<Round>, more: seq<Round>)
    requires Run(job, w, rounds).Done?
    ensures StalledTurns(job, w, rounds + more) == StalledTurns(job, w, rounds)
    decreases |rounds|
  {
    if Looping(job, w) {
      assert (rounds + more)[1..] == rounds[1..] + more;
      if Turn(job, w, rounds[0]).Running? {
        EndedRunsStallNoMore(job, Turn(job, w, rounds[0]).world, rounds[1..], more);
      }
    }
  }

  /** The first n rounds of an endless supply. */
  function Prefix(supply: nat -> Round, n: nat): (rounds: seq<Round>)
    ensures |rounds| == n
    ensures forall i | 0 <= i < n :: rounds[i] == supply(i)
  {
    seq(n, i requires 0 <= i => supply(i))
  }

  ghost predicate Ends(job: Job, supply: nat -> Round) {
    exists n: nat :: Run(job, Start(), Prefix(supply, n)).Done?
  }

  ghost predicate StallsAtMost(job: Job, supply: nat -> Round, b: nat) {
    forall n: nat :: StalledTurns(job, Start(), Prefix(supply, n)) <= b
  }

  /** Main result: against any endless behaviour of server and host the loop ends if and only if
      it stalls only finitely often. */
  lemma UploadEndsExactly(job: Job, supply: nat -> Round)
    ensures Ends(job, supply) <==> exists b: nat :: StallsAtMost(job, supply, b)
  {
    if Ends(job, supply) {
      var n: nat :| Run(job, Start(), Prefix(supply, n)).Done?;
      forall m: nat ensures StalledTurns(job, Start(), Prefix(supply, m)) <= n {
        StallsStopAtEnd(job, supply, n, m);
      }
      assert StallsAtMost(job, supply, n);
    }
    if b: nat :| StallsAtMost(job, supply, b) {
      BoundedStallsEnd(job, supply, b);
    }
  }

  lemma StallsStopAtEnd(job: Job, supply: nat -> Round, n: nat, m: nat)
    requires Run(job, Start(), Prefix(supply, n)).Done?
    ensures StalledTurns(job, Start(), Prefix(supply, m)) <= n
  {
    StallsAreTurns(job, Start(), Prefix(supply, m));
    if n < m {
      var early, late := Prefix(supply, n), Prefix(supply, m);
      StallsAreTurns(job, Start(), early);
      assert late == early + late[n..];
      EndedRunsStallNoMore(job, Start(), early, late[n..]);
    }
  }

  lemma BoundedStallsEnd(job: Job, supply: nat -> Round, b: nat)
    requires StallsAtMost(job, supply, b)
    ensures Ends(job, supply)
  {
    var n: nat := b + (if job.fileSize > 0 then 3 * job.fileSize + 3 else 0);
    var rounds := Prefix(supply, n);
    assert StalledTurns(job, Start(), rounds) <= b;
    if Run(job, Start(), rounds).Running? {
      UnfinishedUploadStalls(job, Session(200, true), rounds);
    }
    assert Run(job, Start(), rounds).Done?;
  }

  function Repeated(r: Round, n: nat): (rs: seq<Round>)
    ensures |rs| == n
  {
    seq(n, _ => r)
  }

  /** Endless stalling is possible: a server that keeps storing nothing and keeps saying so holds
      the loop in one state however many rounds it is given. */
  lemma {:induction false} StallsForever(job: Job, w: World, r: Round, n: nat)
    requires Looping(job, w) && InStep(w) && Stalls(job, w, r) && r.accepted == 0
    ensures Run(job, w, Repeated(r, n)) == Running(w)
    decreases n
  {
    if n > 0 {
      assert Repeated(r, n)[1..] == Repeated(r, n - 1);
      StalledTurnStandsStill(job, w, r);
      StallsForever(job, w, r, n - 1);
    }
  }

  lemma StalledTurnStandsStill(job: Job, w: World, r: Round)
    requires Looping(job, w) && InStep(w) && Stalls(job, w, r) && r.accepted == 0
    ensures Turn(job, w, r) == Running(w)
  {
    assert Store(job, w.stored, w.uploaded, 0) == w.stored;
    StalledTurnKeepsOffset(job, w, r);
  }
}
