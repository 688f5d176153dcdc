/** The daemon's handlers and tasks, interleaved at every lock and await: one step below is
    what one of them does between two such points. */
module Daemon {
  import opened Bytes
  import opened Outcomes
  import opened Storage
  import opened Device
  import opened Worker

  /** What a verify task will announce; `slot` is the matched slot. */
  datatype Verdict = Verdict(status: Status, slot: byte)

  /** What a verify task checks against: its user, the finger asked for (None for "any"), its
      token, the user's rows as it was minted, and the slots it will accept. */
  datatype Check = Check(user: User, selected: Option<Finger>, token: Token, rows: map<Finger, byte>, expected: set<byte>)

  /** A finger and the sensor slot to be cleared for it. */
  datatype Target = Target(finger: Finger, slot: byte)

  /** Where a handler or task is, and its local variables. */
  datatype Proc =
    | VerifyEntry(user: User, selected: Option<Finger>)
    | VerifyPermit(user: User, selected: Option<Finger>)
    | VerifyMinted(user: User, selected: Option<Finger>, token: Token, rows: map<Finger, byte>)
    | VerifyTurn(check: Check, retries: nat)
    | VerifyAsk(check: Check, retries: nat)
    | VerifyAsked(check: Check, retries: nat)
    | VerifyEnd(check: Check, ending: Option<Verdict>)
    | VerifyTell(check: Check, verdict: Verdict)
    | EnrollEntry(user: User, finger: Finger)
    | EnrollPermit(user: User, finger: Finger)
    | EnrollMinted(user: User, finger: Finger, token: Token)
    | EnrollNew(user: User, finger: Finger, token: Token)
    | EnrollFull(token: Token)
    | EnrollAsk(user: User, finger: Finger, token: Token, slot: byte)
    | EnrollAsked(user: User, finger: Finger, token: Token, slot: byte)
    | EnrollEnd(user: User, finger: Finger, token: Token, slot: byte, stored: bool)
    | EnrollStore(user: User, finger: Finger, token: Token, slot: byte)
    | EnrollTell(token: Token)
    | DeleteEntry(user: User)
    | DeleteMinted(user: User, token: Token)
    | DeleteNext(user: User, token: Token, todo: seq<Target>, gone: seq<Finger>)
    | DeleteAsked(user: User, token: Token, todo: seq<Target>, gone: seq<Finger>)
    | DeleteRows(user: User, token: Token, gone: seq<Finger>)
    | DeleteOneEntry(user: User, finger: Finger)
    | DeleteOneFound(user: User, finger: Finger, slot: byte)
    | DeleteEnd(token: Token)
    | StopEntry(kind: ActionKind)
    | Finished

  /** A request to the worker, queued or running. */
  datatype Request = Request(pid: nat, capture: bool)

  /** A token as it was minted, by which process, for whom, and the rows that user had. */
  datatype Mint = Mint(token: Token, pid: nat, user: User, rows: map<Finger, byte>)

  /** A token leaving the action slot: ended by its own task, or removed from outside. */
  datatype Cleared = Cleared(token: Token, byOwner: bool)

  /** Whose finger a template in the sensor's flash is. */
  datatype Owner = Owner(user: User, finger: Finger)

  datatype State = State(
    claims: Claims, users: Users, templates: map<byte, Owner>, permit: Option<nat>, procs: map<nat, Proc>,
    queue: seq<Request>, mints: seq<Mint>, cleared: seq<Cleared>, told: seq<Token>)

  /** What a step takes from outside: nothing, a worker's reply, an order to delete in. With
      a reply goes whether the retry budget's time is up, and whether the sensor did what it
      was asked even though the reply is an error. */
  datatype Input =
    | Go
    | Answered(reply: Reply, late: bool, done: bool)
    | Order(targets: seq<Target>)

  datatype Step =
    | ClaimStep(user: User, name: BusName)
    | ReleaseStep(sender: Option<BusName>)
    | DisconnectStep(name: BusName)
    | StopCall(pid: nat, sender: Option<BusName>, kind: ActionKind)
    | VerifyStart(pid: nat, sender: Option<BusName>, selected: Option<Finger>)
    | EnrollStart(pid: nat, sender: Option<BusName>, finger: Finger)
    | DeleteAll(pid: nat, user: User)
    | DeleteClaimed(pid: nat, sender: Option<BusName>)
    | DeleteOne(pid: nat, sender: Option<BusName>, finger: Finger)
    | Advance(pid: nat, input: Input)

  // ----- shared effects -----

  function At(s: State, pid: nat, p: Proc): State {
    s.(procs := s.procs[pid := p])
  }

  /** The process is over: it lets its permit go. */
  function Leave(s: State, pid: nat): State {
    At(s, pid, Finished).(permit := if s.permit == Some(pid) then None else s.permit)
  }

  /** A change of the claims that may have removed the current token from outside. */
  function WithClaims(s: State, claims: Claims): State {
    s.(claims := claims,
       cleared := if s.claims.action.Some? && claims.action.None?
                  then s.cleared + [Cleared(s.claims.action.value, false)] else s.cleared)
  }

  function Minted(s: State, pid: nat, kind: ActionKind, user: User): State {
    var (claims, token) := StartAction(s.claims, kind);
    s.(claims := claims, mints := s.mints + [Mint(token, pid, user, UserSlots(s.users, user))])
  }

  function Ended(s: State, token: Token): State {
    s.(claims := EndActionIfOwner(s.claims, token).0,
       cleared := if EndActionIfOwner(s.claims, token).1 then s.cleared + [Cleared(token, true)] else s.cleared)
  }

  function Asking(s: State, pid: nat, capture: bool, p: Proc): State {
    At(s, pid, p).(queue := s.queue + [Request(pid, capture)])
  }

  /** The worker has answered the request at the head of its queue. */
  predicate AtHead(s: State, pid: nat) {
    s.queue != [] && s.queue[0].pid == pid
  }

  /** The reply says the sensor did it. */
  predicate Succeeded(reply: Reply) {
    reply.FromSensor? && reply.result.Value?
  }

  // ----- verify -----

  /** The slots a verify accepts: every row's for "any", otherwise that finger's. */
  function Expected(selected: Option<Finger>, rows: map<Finger, byte>): Option<set<byte>> {
    match selected
    case None => if rows == map[] then None else Some(rows.Values)
    case Some(f) => if f in rows then Some({rows[f]}) else None
  }

  /** After a worker's reply. */
  function VerifyAnswered(s: State, pid: nat, p: Proc, threshold: nat, reply: Reply, late: bool): State
    requires p.VerifyAsked?
  {
    match Decide(reply, p.check.expected, threshold, p.retries, late)
    case Retry => At(s, pid, VerifyTurn(p.check, p.retries + 1))
    case Final(status) =>
      var slot := if status.Match? && Succeeded(reply) then reply.result.slot else 0;
      At(s, pid, VerifyEnd(p.check, Some(Verdict(status, slot))))
  }

  function AdvanceVerify(s: State, pid: nat, p: Proc, threshold: nat, input: Input): State {
    match p
    case VerifyEntry(user, selected) =>
      if s.permit.Some? then Leave(s, pid) else At(s, pid, VerifyPermit(user, selected)).(permit := Some(pid))
    case VerifyPermit(user, selected) =>
      if s.claims.action.Some? then Leave(s, pid)
      else
        var token := StartAction(s.claims, VerifyAction).1;
        At(Minted(s, pid, VerifyAction, user), pid, VerifyMinted(user, selected, token, UserSlots(s.users, user)))
    case VerifyMinted(user, selected, token, rows) =>
      if Expected(selected, rows).None? then Leave(Ended(s, token), pid)
      else At(s, pid, VerifyTurn(Check(user, selected, token, rows, Expected(selected, rows).value), 0))
    case VerifyTurn(check, retries) =>
      if s.claims.action != Some(check.token) then At(s, pid, VerifyEnd(check, None))
      else At(s, pid, VerifyAsk(check, retries))
    case VerifyAsk(check, retries) => Asking(s, pid, true, VerifyAsked(check, retries))
    case VerifyAsked(_, _) =>
      if AtHead(s, pid) && input.Answered?
      then VerifyAnswered(s.(queue := s.queue[1..]), pid, p, threshold, input.reply, input.late) else s
    case VerifyEnd(check, ending) =>
      if EndActionIfOwner(s.claims, check.token).1 && ending.Some?
      then At(Ended(s, check.token), pid, VerifyTell(check, ending.value))
      else Leave(Ended(s, check.token), pid)
    case VerifyTell(check, verdict) => Leave(s.(told := s.told + [check.token]), pid)
    case _ => s
  }

  // ----- enroll -----

  function AdvanceEnroll(s: State, pid: nat, p: Proc, capacity: nat, input: Input): State {
    match p
    case EnrollEntry(user, finger) =>
      if s.permit.Some? then Leave(s, pid) else At(s, pid, EnrollPermit(user, finger)).(permit := Some(pid))
    case EnrollPermit(user, finger) =>
      if s.claims.action.Some? then Leave(s, pid)
      else At(Minted(s, pid, EnrollAction, user), pid, EnrollMinted(user, finger, StartAction(s.claims, EnrollAction).1))
    case EnrollMinted(user, finger, token) =>
      (match SlotOf(s.users, user, finger)
       case Some(slot) => At(s, pid, EnrollAsk(user, finger, token, slot))
       case None => At(s, pid, EnrollNew(user, finger, token)))
    case EnrollNew(user, finger, token) =>
      (match Lowest(s.users, capacity, 0)
       case Some(slot) => At(s, pid, EnrollAsk(user, finger, token, slot))
       case None => At(s, pid, EnrollFull(token)))
    case EnrollFull(token) => Leave(Ended(s, token), pid)
    case EnrollAsk(user, finger, token, slot) => Asking(s, pid, true, EnrollAsked(user, finger, token, slot))
    case EnrollAsked(user, finger, token, slot) =>
      if AtHead(s, pid) && input.Answered? then
        var templates := if Succeeded(input.reply) || input.done then s.templates[slot := Owner(user, finger)] else s.templates;
        At(s.(queue := s.queue[1..], templates := templates), pid,
           EnrollEnd(user, finger, token, slot, Succeeded(input.reply)))
      else s
    case EnrollEnd(user, finger, token, slot, stored) =>
      if !EndActionIfOwner(s.claims, token).1 then Leave(s, pid)
      else At(Ended(s, token), pid, if stored then EnrollStore(user, finger, token, slot) else EnrollTell(token))
    case EnrollStore(user, finger, token, slot) =>
      At(s.(users := SetSlot(s.users, user, finger, slot)), pid, EnrollTell(token))
    case EnrollTell(token) => Leave(s.(told := s.told + [token]), pid)
    case _ => s
  }

  // ----- delete -----

  /** Each of the rows once, in whatever order the map is walked. */
  ghost predicate IsOrderOf(targets: seq<Target>, rows: map<Finger, byte>) {
    && |targets| == |rows|
    && (forall t :: t in targets ==> t.finger in rows && rows[t.finger] == t.slot)
    && (forall f :: f in rows ==> Target(f, rows[f]) in targets)
  }

  /** Up to the token and the list of targets. */
  ghost function DeleteGate(s: State, pid: nat, p: Proc, input: Input): State {
    match p
    case DeleteEntry(user) =>
      if s.claims.action.Some? then Leave(s, pid)
      else At(Minted(s, pid, DeleteAction, user), pid, DeleteMinted(user, StartAction(s.claims, DeleteAction).1))
    case DeleteMinted(user, token) =>
      if input.Order? && IsOrderOf(input.targets, UserSlots(s.users, user))
      then At(s, pid, DeleteNext(user, token, input.targets, [])) else s
    case DeleteOneEntry(user, finger) =>
      (match SlotOf(s.users, user, finger)
       case None => Leave(s, pid)
       case Some(slot) => At(s, pid, DeleteOneFound(user, finger, slot)))
    case DeleteOneFound(user, finger, slot) =>
      if s.claims.action.Some? then Leave(s, pid)
      else
        var token := StartAction(s.claims, DeleteAction).1;
        At(Minted(s, pid, DeleteAction, user), pid, DeleteNext(user, token, [Target(finger, slot)], []))
    case _ => s
  }

  /** The sensor requests, then the rows, then the token. */
  function DeleteWork(s: State, pid: nat, p: Proc, input: Input): State {
    match p
    case DeleteNext(user, token, todo, gone) =>
      if todo == [] then At(s, pid, DeleteRows(user, token, gone))
      else Asking(s, pid, false, DeleteAsked(user, token, todo, gone))
    case DeleteAsked(user, token, todo, gone) =>
      if AtHead(s, pid) && input.Answered? && todo != [] then
        var ok := Succeeded(input.reply);
        At(s.(queue := s.queue[1..], templates := if ok || input.done then s.templates - {todo[0].slot} else s.templates),
           pid, DeleteNext(user, token, todo[1..], if ok then gone + [todo[0].finger] else gone))
      else s
    case DeleteRows(user, token, gone) =>
      if gone == [] then At(s, pid, DeleteEnd(token))
      else At(s.(users := RemoveFinger(s.users, user, gone[0])), pid, DeleteRows(user, token, gone[1..]))
    case DeleteEnd(token) => Leave(Ended(s, token), pid)
    case _ => s
  }

  predicate Working(p: Proc) {
    p.DeleteNext? || p.DeleteAsked? || p.DeleteRows? || p.DeleteEnd?
  }

  ghost function AdvanceDelete(s: State, pid: nat, p: Proc, input: Input): State {
    if Working(p) then DeleteWork(s, pid, p, input) else DeleteGate(s, pid, p, input)
  }

  /** The second lock section of VerifyStop and EnrollStop. */
  function AdvanceStop(s: State, pid: nat, p: Proc): State
    requires p.StopEntry?
  {
    Leave(Claimed(s, StopAction(s.claims, p.kind)), pid)
  }

  ghost function AdvanceProc(s: State, pid: nat, threshold: nat, capacity: nat, input: Input): State
    requires pid in s.procs
  {
    var p := s.procs[pid];
    if IsVerify(p) then AdvanceVerify(s, pid, p, threshold, input)
    else if IsEnroll(p) then AdvanceEnroll(s, pid, p, capacity, input)
    else if p.StopEntry? then AdvanceStop(s, pid, p)
    else AdvanceDelete(s, pid, p, input)
  }

  predicate IsVerify(p: Proc) {
    || p.VerifyEntry? || p.VerifyPermit? || p.VerifyMinted? || p.VerifyTurn?
    || p.VerifyAsk? || p.VerifyAsked? || p.VerifyEnd? || p.VerifyTell?
  }

  predicate IsEnroll(p: Proc) {
    || p.EnrollEntry? || p.EnrollPermit? || p.EnrollMinted? || p.EnrollNew? || p.EnrollFull?
    || p.EnrollAsk? || p.EnrollAsked? || p.EnrollEnd? || p.EnrollStore? || p.EnrollTell?
  }

  function Entered(s: State, pid: nat, claim: Result<User, DeviceError>, entry: User -> Proc): State {
    match claim
    case Ok(user) => At(s, pid, entry(user))
    case Err(_) => s
  }

  function Claimed(s: State, claims: Result<Claims, DeviceError>): State {
    match claims
    case Ok(after) => WithClaims(s, after)
    case Err(_) => s
  }

  /** New handlers run under a fresh process number. */
  ghost predicate Next(s: State, step: Step, t: State, threshold: nat, capacity: nat) {
    match step
    case ClaimStep(user, name) => t == Claimed(s, Claim(s.claims, user, Some(name)))
    case ReleaseStep(sender) => t == Claimed(s, Release(s.claims, sender))
    case DisconnectStep(name) => t == WithClaims(s, Disconnect(s.claims, name))
    case StopCall(pid, sender, kind) =>
      pid !in s.procs && kind != DeleteAction
      && t == Entered(s, pid, EnsureClaim(s.claims, sender), user => StopEntry(kind))
    case VerifyStart(pid, sender, selected) =>
      pid !in s.procs && t == Entered(s, pid, EnsureClaim(s.claims, sender), user => VerifyEntry(user, selected))
    case EnrollStart(pid, sender, finger) =>
      pid !in s.procs && t == Entered(s, pid, EnsureClaim(s.claims, sender), user => EnrollEntry(user, finger))
    case DeleteAll(pid, user) => pid !in s.procs && t == At(s, pid, DeleteEntry(user))
    case DeleteClaimed(pid, sender) =>
      pid !in s.procs && t == Entered(s, pid, EnsureClaim(s.claims, sender), user => DeleteEntry(user))
    case DeleteOne(pid, sender, finger) =>
      pid !in s.procs && t == Entered(s, pid, EnsureClaim(s.claims, sender), user => DeleteOneEntry(user, finger))
    case Advance(pid, input) => pid in s.procs && t == AdvanceProc(s, pid, threshold, capacity, input)
  }

  /** No row's slot holds a template of anybody else's finger. */
  ghost predicate NoForeignTemplate(s: State) {
    forall u, f :: SlotOf(s.users, u, f).Some? && SlotOf(s.users, u, f).value in s.templates ==>
      s.templates[SlotOf(s.users, u, f).value] == Owner(u, f)
  }

  /** The daemon has just started, with any registry that gives no slot twice and any sensor
      that agrees with it. */
  ghost predicate Init(s: State) {
    && s.claims == Claims(None, None, None, 0) && Injective(s.users) && NoForeignTemplate(s)
    && s.permit == None && s.procs == map[] && s.queue == []
    && s.mints == [] && s.cleared == [] && s.told == []
  }

  ghost predicate IsRun(states: seq<State>, steps: seq<Step>, threshold: nat, capacity: nat) {
    && |states| == |steps| + 1
    && Init(states[0])
    && forall i :: 0 <= i < |steps| ==> Next(states[i], steps[i], states[i + 1], threshold, capacity)
  }
}
