/** The daemon's sensor worker: one request at a time, reopening and retrying at most once;
    and the verify task that keeps asking it. */
module Worker {
  import opened Bytes
  import opened Outcomes
  import opened MacWire
  import opened SensorLink

  const REOPEN_ATTEMPTS: nat := 4
  const MAX_RETRIES: nat := 5

  datatype Kind = Info | Enroll | Verify | Identify | Delete | Clear | Wake | Ping | LedOff

  /** How one operation on an open sensor ends. `slot` and `confidence` are what a match
      reports; other operations' values play no part here. */
  datatype OpResult =
    | Value(slot: byte, confidence: nat)
    | Refused(code: bytes)
    | NoReply
    | FatalIo
    | OtherError

  /** What the caller is sent: the operation's own result, the error of the last reopen
      attempt, or "sensor failed twice in a row". */
  datatype Reply = FromSensor(result: OpResult) | OpenFailed(attempt: nat) | FailedTwice

  datatype HandleOutcome = Done | NeedsReopen | DoneAfterFatal

  datatype Service = Service(reply: Reply, opens: nat, runs: nat, sensorOpen: bool)

  /** Up to `left` open attempts, numbered from `opens`. */
  function Reopen(openOk: nat -> bool, opens: nat, left: nat): (r: (bool, nat))
    ensures opens <= r.1 <= opens + left
    ensures r.0 ==> r.1 > opens && openOk(r.1 - 1)
    ensures !r.0 ==> r.1 == opens + left && forall k :: opens <= k < r.1 ==> !openOk(k)
    decreases left
  {
    if left == 0 then (false, opens)
    else if openOk(opens) then (true, opens + 1)
    else Reopen(openOk, opens + 1, left - 1)
  }

  /** How a request is served, given how each open attempt and each run will end. */
  function ServeFrom(openOk: nat -> bool, outcome: nat -> OpResult, kind: Kind,
                     sensorOpen: bool, opens: nat, runs: nat, retried: bool): Service
    decreases !retried
  {
    var (up, tried) := if sensorOpen then (true, opens) else Reopen(openOk, opens, REOPEN_ATTEMPTS);
    if !up then Service(OpenFailed(tried - 1), tried, runs, false)
    else if !outcome(runs).FatalIo? then Service(FromSensor(outcome(runs)), tried, runs + 1, true)
    else if kind.Enroll? then Service(FromSensor(FatalIo), tried, runs + 1, false)
    else if retried then Service(FailedTwice, tried, runs + 1, false)
    else ServeFrom(openOk, outcome, kind, false, tried, runs + 1, true)
  }

  lemma ReopenFour(openOk: nat -> bool, opens: nat)
    ensures Reopen(openOk, opens, REOPEN_ATTEMPTS)
         == if openOk(opens) then (true, opens + 1) else if openOk(opens + 1) then (true, opens + 2)
            else if openOk(opens + 2) then (true, opens + 3) else (openOk(opens + 3), opens + 4)
  {
    assert Reopen(openOk, opens + 3, 1) == (openOk(opens + 3), opens + 4);
    assert Reopen(openOk, opens + 2, 2) == if openOk(opens + 2) then (true, opens + 3) else Reopen(openOk, opens + 3, 1);
    assert Reopen(openOk, opens + 1, 3) == if openOk(opens + 1) then (true, opens + 2) else Reopen(openOk, opens + 2, 2);
  }

  /** With the sensor closed, the operation is run exactly if one of four open attempts
      succeeds, and then no further one is made before it; otherwise the caller is told of
      the fourth. */
  lemma FourAttempts(openOk: nat -> bool, outcome: nat -> OpResult, kind: Kind, opens: nat, runs: nat)
    ensures var s := ServeFrom(openOk, outcome, kind, false, opens, runs, false);
            && (s.runs > runs <==> openOk(opens) || openOk(opens + 1) || openOk(opens + 2) || openOk(opens + 3))
            && (s.runs == runs ==> s == Service(OpenFailed(opens + 3), opens + 4, runs, false))
  {
    hide Reopen;
    ReopenFour(openOk, opens);
    ReopenTurn(openOk, outcome, kind, opens, runs, false);
    var (up, tried) := Reopen(openOk, opens, REOPEN_ATTEMPTS);
    if up {
      ServiceBounds(openOk, outcome, kind, true, tried, runs);
      RunsFirst(openOk, outcome, kind, tried, runs);
    }
  }

  lemma RunsFirst(openOk: nat -> bool, outcome: nat -> OpResult, kind: Kind, opens: nat, runs: nat)
    ensures ServeFrom(openOk, outcome, kind, true, opens, runs, false).runs > runs
  {
    hide Reopen;
  }

  /** One turn of serving, with the sensor open. */
  lemma ServeTurn(openOk: nat -> bool, outcome: nat -> OpResult, kind: Kind, opens: nat, runs: nat, retried: bool)
    ensures ServeFrom(openOk, outcome, kind, true, opens, runs, retried)
         == if !outcome(runs).FatalIo? then Service(FromSensor(outcome(runs)), opens, runs + 1, true)
            else if kind.Enroll? then Service(FromSensor(FatalIo), opens, runs + 1, false)
            else if retried then Service(FailedTwice, opens, runs + 1, false)
            else ServeFrom(openOk, outcome, kind, false, opens, runs + 1, true)
  {
  }

  /** One turn of serving, with the sensor to be reopened. */
  lemma ReopenTurn(openOk: nat -> bool, outcome: nat -> OpResult, kind: Kind, opens: nat, runs: nat, retried: bool)
    ensures var (up, tried) := Reopen(openOk, opens, REOPEN_ATTEMPTS);
            ServeFrom(openOk, outcome, kind, false, opens, runs, retried)
            == if up then ServeFrom(openOk, outcome, kind, true, tried, runs, retried)
               else Service(OpenFailed(tried - 1), tried, runs, false)
  {
    hide Reopen;
  }

  /** Bounds for every pattern of failures: at most two runs and eight open attempts, an
      enroll runs at most once, and what each kind of reply says happened. */
  lemma ServiceBounds(openOk: nat -> bool, outcome: nat -> OpResult, kind: Kind, sensorOpen: bool, opens: nat, runs: nat)
    ensures var s := ServeFrom(openOk, outcome, kind, sensorOpen, opens, runs, false);
            && runs <= s.runs <= runs + 2 && opens <= s.opens <= opens + 2 * REOPEN_ATTEMPTS
            && (kind.Enroll? ==> s.runs <= runs + 1 && s.opens <= opens + REOPEN_ATTEMPTS)
            && (s.runs == runs + 2 ==> outcome(runs).FatalIo? && !kind.Enroll?)
            && match s.reply
               case FromSensor(result) =>
                 s.runs > runs && result == outcome(s.runs - 1) && (result.FatalIo? ==> kind.Enroll? && s.runs == runs + 1)
               case OpenFailed(attempt) =>
                 && attempt == s.opens - 1 && s.opens >= opens + REOPEN_ATTEMPTS && s.runs <= runs + 1
                 && (forall k :: s.opens - REOPEN_ATTEMPTS <= k < s.opens ==> !openOk(k))
               case FailedTwice => s.runs == runs + 2 && outcome(runs).FatalIo? && outcome(runs + 1).FatalIo?
  {
    hide Reopen;
    var (up, tried) := if sensorOpen then (true, opens) else Reopen(openOk, opens, REOPEN_ATTEMPTS);
    var s := ServeFrom(openOk, outcome, kind, sensorOpen, opens, runs, false);
    if up && outcome(runs).FatalIo? && !kind.Enroll? {
      var (again, more) := Reopen(openOk, tried, REOPEN_ATTEMPTS);
      assert s == ServeFrom(openOk, outcome, kind, false, tried, runs + 1, true);
    }
  }

  /** The sensor is kept open after a request exactly when the last thing done was a run that
      did not fail fatally. */
  lemma KeptOpenExactly(openOk: nat -> bool, outcome: nat -> OpResult, kind: Kind, sensorOpen: bool, opens: nat, runs: nat)
    ensures var s := ServeFrom(openOk, outcome, kind, sensorOpen, opens, runs, false);
            s.sensorOpen <==> s.reply.FromSensor? && !s.reply.result.FatalIo?
  {
    hide Reopen;
  }

  class Actor {
    const openOk: nat -> bool         // how each open attempt ends, in order
    const outcome: nat -> OpResult    // how each run of a request ends, in order
    var sensorOpen: bool
    var opens: nat
    var runs: nat
    var replies: seq<(nat, Reply)>    // every reply sent, with its request

    /** The worker starts only if the first open succeeds. */
    constructor (o: nat -> bool, r: nat -> OpResult)
      ensures openOk == o && outcome == r && sensorOpen && opens == 1 && runs == 0 && replies == []
    {
      openOk, outcome := o, r;
      sensorOpen, opens, runs, replies := true, 1, 0, [];
    }

    method TryReopen()
      requires !sensorOpen
      modifies this`sensorOpen, this`opens
      ensures (sensorOpen, opens) == Reopen(openOk, old(opens), REOPEN_ATTEMPTS)
    {
      for attempt := 0 to 4
        invariant !sensorOpen && opens == old(opens) + attempt
        invariant Reopen(openOk, old(opens), REOPEN_ATTEMPTS) == Reopen(openOk, opens, REOPEN_ATTEMPTS - attempt)
      {
        var ok := openOk(opens);
        opens := opens + 1;
        if ok {
          sensorOpen := true;
          break;
        }
      }
    }

    /** handle_request: runs the operation, and replies unless it is to be retried. */
    method HandleRequest(id: nat, kind: Kind) returns (h: HandleOutcome)
      modifies this`runs, this`replies
      ensures runs == old(runs) + 1
      ensures var r := outcome(old(runs));
              && h == (if !r.FatalIo? then Done else if kind.Enroll? then DoneAfterFatal else NeedsReopen)
              && replies == old(replies) + (if h.NeedsReopen? then [] else [(id, FromSensor(r))])
    {
      var result := outcome(runs);
      runs := runs + 1;
      if kind.Enroll? {
        replies := replies + [(id, FromSensor(result))];
        return if result.FatalIo? then DoneAfterFatal else Done;
      }
      if result.FatalIo? {
        return NeedsReopen;
      }
      replies := replies + [(id, FromSensor(result))];
      return Done;
    }

    /** One turn of the worker loop: exactly one reply goes out for the request. */
    method Serve(id: nat, kind: Kind)
      modifies this
      ensures var s := ServeFrom(openOk, outcome, kind, old(sensorOpen), old(opens), old(runs), false);
              && Service(s.reply, opens, runs, sensorOpen) == s
              && replies == old(replies) + [(id, s.reply)]
    {
      hide Reopen, ServeFrom;
      var alreadyRetried := false;
      ghost var s := ServeFrom(openOk, outcome, kind, sensorOpen, opens, runs, false);
      while true
        invariant s == ServeFrom(openOk, outcome, kind, sensorOpen, opens, runs, alreadyRetried)
        invariant replies == old(replies)
        decreases !alreadyRetried
      {
        if !sensorOpen {
          ReopenTurn(openOk, outcome, kind, opens, runs, alreadyRetried);
          TryReopen();
          if !sensorOpen {
            replies := replies + [(id, OpenFailed(opens - 1))];
            return;
          }
        }
        ServeTurn(openOk, outcome, kind, opens, runs, alreadyRetried);
        var h := HandleRequest(id, kind);
        match h {
          case Done => return;
          case DoneAfterFatal =>
            sensorOpen := false;
            return;
          case NeedsReopen =>
            sensorOpen := false;
            if alreadyRetried {
              replies := replies + [(id, FailedTwice)];
              return;
            }
            alreadyRetried := true;
        }
      }
    }
  }

  // ----- the verify task -----

  datatype Status = Match | NoMatch | UnknownError | Disconnected

  datatype Decision = Retry | Final(status: Status)

  predicate Retryable(code: bytes) {
    var low := Lowered(code);
    || low == Ascii("timeout") || low == Ascii("poor_quality")
    || StartsWith(low, Ascii("capture_failed")) || StartsWith(low, Ascii("image2tz_failed"))
  }

  predicate Accepts(reply: Reply, expected: set<byte>, threshold: nat) {
    && reply.FromSensor? && reply.result.Value?
    && reply.result.slot in expected && reply.result.confidence >= threshold
  }

  /** What the verify task does about a reply; `late` says the retry budget's time is up. */
  function Decide(reply: Reply, expected: set<byte>, threshold: nat, retries: nat, late: bool): Decision {
    match reply
    case OpenFailed(_) => Final(Disconnected)
    case FailedTwice => Final(Disconnected)
    case FromSensor(result) =>
      match result
      case Value(_, _) => Final(if Accepts(reply, expected, threshold) then Match else NoMatch)
      case Refused(code) =>
        if Lowered(code) == Ascii("no_match") then Final(NoMatch)
        else if Retryable(code) then (if retries >= MAX_RETRIES || late then Final(NoMatch) else Retry)
        else Final(UnknownError)
      case NoReply => if retries >= MAX_RETRIES || late then Final(NoMatch) else Retry
      case FatalIo => Final(Disconnected)
      case OtherError => Final(UnknownError)
  }

  /** verify-match is decided on nothing but an expected slot at sufficient confidence. */
  lemma MatchExactly(reply: Reply, expected: set<byte>, threshold: nat, retries: nat, late: bool)
    ensures Decide(reply, expected, threshold, retries, late) == Final(Match) <==> Accepts(reply, expected, threshold)
    ensures retries >= MAX_RETRIES ==> !Decide(reply, expected, threshold, retries, late).Retry?
  {
    hide Ascii, Lowered, StartsWith;
  }

  /** A refusal the firmware expects to be tried again, in any case of letters. */
  predicate AsksAgain(code: bytes) {
    var low := Lowered(code);
    || low == Ascii("timeout") || low == Ascii("poor_quality")
    || (|low| >= 14 && low[..14] == Ascii("capture_failed")) || (|low| >= 15 && low[..15] == Ascii("image2tz_failed"))
  }

  lemma RetryableExactly(code: bytes)
    ensures Retryable(code) <==> AsksAgain(code)
    ensures AsksAgain(code) ==> Lowered(code) != Ascii("no_match")
  {
    hide Lowered;
    var low, none := Lowered(code), Ascii("no_match");
    assert |none| == 8 && none[0] == 0x6E;
    assert Ascii("timeout")[0] == 0x74 && Ascii("poor_quality")[0] == 0x70;
  }

  /** The status that goes out, for every reply: disconnected after a worker or port failure,
      another try for a lost or provisional answer while retries and time last, no match for
      a refused finger, a wrong slot, a low confidence or a spent budget, and an unknown error
      for every other refusal. */
  lemma StatusExactly(reply: Reply, expected: set<byte>, threshold: nat, retries: nat, late: bool)
    ensures var d := Decide(reply, expected, threshold, retries, late);
            && (d == Final(Disconnected) <==> !reply.FromSensor? || reply.result.FatalIo?)
            && (reply.FromSensor? ==>
                  match reply.result
                  case Value(slot, confidence) =>
                    d == Final(if slot in expected && confidence >= threshold then Match else NoMatch)
                  case Refused(code) =>
                    && (d == Retry <==> AsksAgain(code) && retries < 5 && !late)
                    && (d == Final(NoMatch) <==>
                          Lowered(code) == Ascii("no_match") || (AsksAgain(code) && (retries >= 5 || late)))
                    && (d == Final(UnknownError) <==> !AsksAgain(code) && Lowered(code) != Ascii("no_match"))
                  case NoReply => d == if retries < 5 && !late then Retry else Final(NoMatch)
                  case FatalIo => true
                  case OtherError => d == Final(UnknownError))
  {
    if reply.FromSensor? && reply.result.Refused? {
      RetryableExactly(reply.result.code);
    }
    hide Lowered, Retryable, AsksAgain, Ascii;
  }

  /** The replies to one client, in order. */
  function RepliesTo(id: nat, replies: seq<(nat, Reply)>): seq<Reply> {
    if replies == [] then []
    else
      var n := |replies| - 1;
      RepliesTo(id, replies[..n]) + if replies[n].0 == id then [replies[n].1] else []
  }

  lemma {:induction false} OthersAside(id: nat, replies: seq<(nat, Reply)>, more: seq<(nat, Reply)>)
    requires forall r :: r in more ==> r.0 != id
    ensures RepliesTo(id, replies + more) == RepliesTo(id, replies)
  {
    if more != [] {
      var n := |more| - 1;
      assert (replies + more)[..|replies| + n] == replies + more[..n];
      assert (replies + more)[|replies| + n] == more[n];
      OthersAside(id, replies, more[..n]);
    } else {
      assert replies + more == replies;
    }
  }

  /** The requests of others that are queued before one of the task's own. */
  method ServeOthers(actor: Actor, requests: seq<(nat, Kind)>, id: nat)
    requires forall r :: r in requests ==> r.0 != id
    modifies actor
    ensures RepliesTo(id, actor.replies) == RepliesTo(id, old(actor.replies))
  {
    hide ServeFrom;
    for i := 0 to |requests|
      invariant RepliesTo(id, actor.replies) == RepliesTo(id, old(actor.replies))
    {
      ghost var before := actor.replies;
      actor.Serve(requests[i].0, requests[i].1);
      OthersAside(id, before, actor.replies[|before|..]);
      assert actor.replies == before + actor.replies[|before|..];
    }
  }

  /** One request of a verify task's, behind those of others: its reply, and the runs and
      open attempts it took. */
  method AskVerify(actor: Actor, id: nat, requests: seq<(nat, Kind)>) returns (reply: Reply, runs: nat, opens: nat)
    requires forall r :: r in requests ==> r.0 != id
    modifies actor
    ensures RepliesTo(id, actor.replies) == RepliesTo(id, old(actor.replies)) + [reply]
    ensures runs <= 2 && opens <= 8
  {
    hide ServeFrom;
    ServeOthers(actor, requests, id);
    var runsBefore, opensBefore, repliesBefore := actor.runs, actor.opens, actor.replies;
    ServiceBounds(actor.openOk, actor.outcome, Kind.Verify, actor.sensorOpen, actor.opens, actor.runs);
    actor.Serve(id, Kind.Verify);
    runs, opens := actor.runs - runsBefore, actor.opens - opensBefore;
    reply := actor.replies[|actor.replies| - 1].1;
    assert actor.replies[..|actor.replies| - 1] == repliesBefore;
  }

  /** The retry loop of the verify task with this request number. `owned` says, for each
      turn, whether the task's token still holds the action slot; None means it was stopped
      from outside. `others` are the requests the worker serves before each of its own. */
  method VerifyTask(actor: Actor, id: nat, expected: set<byte>, threshold: nat, owned: nat -> bool, late: nat -> bool,
                    others: nat -> seq<(nat, Kind)>)
    returns (status: Option<Status>, heard: seq<Reply>, runs: nat, opens: nat)
    requires forall k, r :: r in others(k) ==> r.0 != id
    modifies actor
    ensures RepliesTo(id, actor.replies) == RepliesTo(id, old(actor.replies)) + heard
    ensures |heard| <= MAX_RETRIES + 1 && runs <= 2 * |heard| <= 12 && opens <= 8 * |heard| <= 48
    ensures status == Some(Match) <==>
              heard != [] && (forall k :: 0 <= k < |heard| ==> owned(k)) && Accepts(heard[|heard| - 1], expected, threshold)
    ensures status.Some? ==>
              heard != [] && Decide(heard[|heard| - 1], expected, threshold, |heard| - 1, late(|heard| - 1)) == Final(status.value)
    ensures status == None <==> !owned(|heard|) && forall k :: 0 <= k < |heard| ==>
              owned(k) && Decide(heard[k], expected, threshold, k, late(k)).Retry?
  {
    hide ServeFrom, RepliesTo, Ascii, Lowered, StartsWith, Retryable, Accepts, Decide;
    var retries := 0;
    heard, runs, opens := [], 0, 0;
    while true
      invariant |heard| == retries <= MAX_RETRIES
      invariant RepliesTo(id, actor.replies) == RepliesTo(id, old(actor.replies)) + heard
      invariant runs <= 2 * |heard| && opens <= 8 * |heard|
      invariant forall k :: 0 <= k < |heard| ==> owned(k)
      invariant forall k :: 0 <= k < |heard| ==> Decide(heard[k], expected, threshold, k, late(k)).Retry?
      decreases MAX_RETRIES - retries
    {
      if !owned(retries) {
        if retries > 0 {
          MatchExactly(heard[retries - 1], expected, threshold, retries - 1, late(retries - 1));
        }
        return None, heard, runs, opens;
      }
      var reply, r, o := AskVerify(actor, id, others(retries));
      runs, opens := runs + r, opens + o;
      heard := heard + [reply];
      var decision := Decide(reply, expected, threshold, retries, late(retries));
      MatchExactly(reply, expected, threshold, retries, late(retries));
      if decision.Final? {
        return Some(decision.status), heard, runs, opens;
      }
      retries := retries + 1;
    }
  }
}
