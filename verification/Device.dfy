/** The device's shared state: who claims it and which action is in flight. */
module Device {
  import opened Bytes
  import opened Outcomes
  import opened Storage

  type BusName = bytes

  datatype ActionKind = EnrollAction | VerifyAction | DeleteAction

  datatype Token = Token(kind: ActionKind, epoch: u64)

  datatype Claims = Claims(claimedBy: Option<User>, claimSender: Option<BusName>,
                           action: Option<Token>, nextEpoch: u64)

  datatype DeviceError = AlreadyInUse | NotClaimed | OtherSender | NoActionInProgress

  function StartAction(d: Claims, kind: ActionKind): (Claims, Token) {
    var token := Token(kind, d.nextEpoch);
    (d.(action := Some(token), nextEpoch := (d.nextEpoch + 1) % TWO_64), token)
  }

  function EndActionIfOwner(d: Claims, expected: Token): (Claims, bool) {
    if d.action == Some(expected) then (d.(action := None), true) else (d, false)
  }

  /** A known sender must be the claiming one. */
  predicate SenderMatches(d: Claims, sender: Option<BusName>) {
    sender.Some? && d.claimSender.Some? ==> sender == d.claimSender
  }

  function EnsureClaim(d: Claims, sender: Option<BusName>): Result<User, DeviceError> {
    if d.claimedBy.None? then Err(NotClaimed)
    else if !SenderMatches(d, sender) then Err(OtherSender)
    else Ok(d.claimedBy.value)
  }

  /** The same user may take an idle claim over; nobody else may. */
  function Claim(d: Claims, user: User, sender: Option<BusName>): Result<Claims, DeviceError> {
    if d.claimedBy.Some? && d.claimedBy.value != user then Err(AlreadyInUse)
    else if d.claimedBy.Some? && d.action.Some? then Err(AlreadyInUse)
    else Ok(d.(claimedBy := Some(user), claimSender := sender))
  }

  function Freed(d: Claims): Claims {
    Claims(None, None, None, d.nextEpoch)
  }

  function Release(d: Claims, sender: Option<BusName>): Result<Claims, DeviceError> {
    if d.claimedBy.None? then Err(NotClaimed)
    else if !SenderMatches(d, sender) then Err(OtherSender)
    else Ok(Freed(d))
  }

  function Disconnect(d: Claims, name: BusName): Claims {
    if d.claimSender == Some(name) then Freed(d) else d
  }

  /** The second lock section of VerifyStop and EnrollStop. */
  function StopAction(d: Claims, kind: ActionKind): Result<Claims, DeviceError> {
    if d.action.Some? && d.action.value.kind == kind then Ok(d.(action := None)) else Err(NoActionInProgress)
  }

  class DeviceState {
    var claimedBy: Option<User>
    var claimSender: Option<BusName>
    var action: Option<Token>
    var nextEpoch: u64
    var fingerPresent: bool
    var fingerNeeded: bool

    constructor ()
      ensures Value() == Claims(None, None, None, 0) && !fingerPresent && !fingerNeeded
    {
      claimedBy, claimSender, action, nextEpoch := None, None, None, 0;
      fingerPresent, fingerNeeded := false, false;
    }

    function Value(): Claims
      reads this
    {
      Claims(claimedBy, claimSender, action, nextEpoch)
    }

    predicate Unchanged(claims: Claims, present: bool, needed: bool)
      reads this
    {
      Value() == claims && fingerPresent == present && fingerNeeded == needed
    }

    method Start(kind: ActionKind) returns (token: Token)
      modifies this
      ensures (Value(), token) == StartAction(old(Value()), kind)
      ensures fingerPresent == old(fingerPresent) && fingerNeeded == old(fingerNeeded)
    {
      var epoch := nextEpoch;
      nextEpoch := (nextEpoch + 1) % 0x1_0000_0000_0000_0000;
      token := Token(kind, epoch);
      action := Some(token);
    }

    method EndIfOwner(expected: Token) returns (ended: bool)
      modifies this
      ensures (Value(), ended) == EndActionIfOwner(old(Value()), expected)
      ensures if ended then !fingerPresent && !fingerNeeded
              else fingerPresent == old(fingerPresent) && fingerNeeded == old(fingerNeeded)
    {
      if action == Some(expected) {
        action := None;
        fingerNeeded := false;
        fingerPresent := false;
        return true;
      }
      return false;
    }

    method TakeClaim(user: User, sender: Option<BusName>) returns (r: Result<(), DeviceError>)
      modifies this
      ensures match Claim(old(Value()), user, sender)
              case Ok(after) => r == Ok(()) && Value() == after
              case Err(e) => r == Err(e) && Value() == old(Value())
      ensures fingerPresent == old(fingerPresent) && fingerNeeded == old(fingerNeeded)
    {
      if claimedBy.Some? {
        if claimedBy.value != user {
          return Err(AlreadyInUse);
        }
        if action.Some? {
          return Err(AlreadyInUse);
        }
      }
      claimedBy := Some(user);
      claimSender := sender;
      return Ok(());
    }

    method DropClaim(sender: Option<BusName>) returns (r: Result<(), DeviceError>)
      modifies this
      ensures match Release(old(Value()), sender)
              case Ok(after) => r == Ok(()) && Value() == after && !fingerPresent && !fingerNeeded
              case Err(e) => r == Err(e) && Unchanged(old(Value()), old(fingerPresent), old(fingerNeeded))
    {
      if claimedBy.None? {
        return Err(NotClaimed);
      }
      if sender.Some? && claimSender.Some? && sender.value != claimSender.value {
        return Err(OtherSender);
      }
      Free();
      return Ok(());
    }

    method HandleClientDisconnect(name: BusName)
      modifies this
      ensures if old(claimSender) == Some(name) then Value() == Freed(old(Value())) && !fingerPresent && !fingerNeeded
              else Unchanged(old(Value()), old(fingerPresent), old(fingerNeeded))
      ensures Value() == Disconnect(old(Value()), name)
    {
      if claimSender == Some(name) {
        Free();
      }
    }

    method Free()
      modifies this
      ensures Value() == Freed(old(Value())) && !fingerPresent && !fingerNeeded
    {
      claimedBy := None;
      claimSender := None;
      action := None;
      fingerNeeded := false;
      fingerPresent := false;
    }

    /** The first lock section of every handler that works for the claimer. */
    method CheckClaim(sender: Option<BusName>) returns (r: Result<User, DeviceError>)
      ensures r == EnsureClaim(Value(), sender)
    {
      if claimedBy.None? {
        return Err(NotClaimed);
      }
      if sender.Some? && claimSender.Some? && sender.value != claimSender.value {
        return Err(OtherSender);
      }
      return Ok(claimedBy.value);
    }

    /** VerifyStop and EnrollStop, when nobody comes between their two lock sections. */
    method Stop(sender: Option<BusName>, kind: ActionKind) returns (r: Result<(), DeviceError>)
      modifies this
      ensures match EnsureClaim(old(Value()), sender)
              case Err(e) => r == Err(e) && Unchanged(old(Value()), old(fingerPresent), old(fingerNeeded))
              case Ok(_) =>
                match StopAction(old(Value()), kind)
                case Ok(after) => r == Ok(()) && Value() == after && !fingerPresent && !fingerNeeded
                case Err(e) => r == Err(e) && Unchanged(old(Value()), old(fingerPresent), old(fingerNeeded))
    {
      var user := CheckClaim(sender);
      match user {
        case Err(e) => return Err(e);
        case Ok(_) =>
      }
      match action {
        case Some(token) =>
          if token.kind == kind {
            action := None;
            fingerNeeded := false;
            fingerPresent := false;
            return Ok(());
          }
        case None =>
      }
      return Err(NoActionInProgress);
    }
  }
}
