/** The per-user registry of sensor slots. */
module Storage {
  import opened Bytes
  import opened Outcomes

  type User = bytes
  type Finger = bytes
  type Users = map<User, map<Finger, byte>>

  datatype StorageError = NoFreeSlot(capacity: nat) | Io

  function SlotOf(users: Users, user: User, finger: Finger): Option<byte> {
    if user in users && finger in users[user] then Some(users[user][finger]) else None
  }

  function UserSlots(users: Users, user: User): map<Finger, byte> {
    if user in users then users[user] else map[]
  }

  predicate InUse(users: Users, slot: byte) {
    exists user | user in users :: exists finger | finger in users[user] :: users[user][finger] == slot
  }

  /** No slot is registered to two rows. */
  ghost predicate Injective(users: Users) {
    forall u, f, v, g :: SlotOf(users, u, f).Some? && SlotOf(users, u, f) == SlotOf(users, v, g) ==> u == v && f == g
  }

  /** Every registered row at this slot, if any, is the given one. */
  ghost predicate OnlyAt(users: Users, slot: byte, user: User, finger: Finger) {
    forall u, f :: SlotOf(users, u, f) == Some(slot) ==> u == user && f == finger
  }

  function SetSlot(users: Users, user: User, finger: Finger, slot: byte): Users {
    users[user := UserSlots(users, user)[finger := slot]]
  }

  /** The row goes, and the user with it if it was the last one. */
  function RemoveFinger(users: Users, user: User, finger: Finger): Users {
    if user !in users then users
    else
      var left := users[user] - {finger};
      if left == map[] then users - {user} else users[user := left]
  }

  lemma SetSlotRows(users: Users, user: User, finger: Finger, slot: byte, u: User, f: Finger)
    ensures SlotOf(SetSlot(users, user, finger, slot), u, f)
         == if u == user && f == finger then Some(slot) else SlotOf(users, u, f)
  {
  }

  lemma RemoveFingerRows(users: Users, user: User, finger: Finger, u: User, f: Finger)
    ensures SlotOf(RemoveFinger(users, user, finger), u, f)
         == if u == user && f == finger then None else SlotOf(users, u, f)
  {
    if user in users {
      var left := users[user] - {finger};
      assert f in left <==> f in users[user] && f != finger;
    }
  }

  /** Registering a slot no other row holds keeps the registry injective, and only then. */
  lemma SetSlotInjective(users: Users, user: User, finger: Finger, slot: byte)
    requires Injective(users)
    ensures Injective(SetSlot(users, user, finger, slot)) <==> OnlyAt(users, slot, user, finger)
  {
    var after := SetSlot(users, user, finger, slot);
    forall u, f ensures SlotOf(after, u, f) == if u == user && f == finger then Some(slot) else SlotOf(users, u, f) {
      SetSlotRows(users, user, finger, slot, u, f);
    }
    hide SlotOf, SetSlot;
    if Injective(after) {
      forall u, f | SlotOf(users, u, f) == Some(slot) ensures u == user && f == finger {
        assert SlotOf(after, user, finger) == Some(slot);
        assert u != user || f != finger ==> SlotOf(after, u, f) == Some(slot);
      }
    }
  }

  lemma RemoveFingerInjective(users: Users, user: User, finger: Finger)
    requires Injective(users)
    ensures Injective(RemoveFinger(users, user, finger))
  {
    var after := RemoveFinger(users, user, finger);
    forall u, f ensures SlotOf(after, u, f) == if u == user && f == finger then None else SlotOf(users, u, f) {
      RemoveFingerRows(users, user, finger, u, f);
    }
    hide SlotOf, RemoveFinger;
  }

  /** A row that is set is read back; removing it again restores the registry, unless the
      user had an empty entry to begin with. */
  lemma SetThenRemove(users: Users, user: User, finger: Finger, slot: byte)
    requires SlotOf(users, user, finger) == None && (user in users ==> users[user] != map[])
    ensures SlotOf(SetSlot(users, user, finger, slot), user, finger) == Some(slot)
    ensures RemoveFinger(SetSlot(users, user, finger, slot), user, finger) == users
  {
    var set_ := SetSlot(users, user, finger, slot);
    assert set_[user] - {finger} == UserSlots(users, user);
    if user in users {
      assert set_[user := users[user]] == users;
    } else {
      assert set_ - {user} == users;
    }
  }

  lemma InUseRow(users: Users, slot: byte)
    ensures InUse(users, slot) <==> exists u, f :: SlotOf(users, u, f) == Some(slot)
  {
    if InUse(users, slot) {
      var u :| u in users && exists f | f in users[u] :: users[u][f] == slot;
      var f :| f in users[u] && users[u][f] == slot;
      assert SlotOf(users, u, f) == Some(slot);
    }
  }

  /** The lowest slot from `from` on that no row uses, of those both the sensor and a byte
      can number. */
  function Lowest(users: Users, capacity: nat, from: nat): Option<byte>
    decreases 256 - from
  {
    if from >= 256 || from >= capacity then None
    else if !InUse(users, from) then Some(from)
    else Lowest(users, capacity, from + 1)
  }

  /** A row may take the allocated slot; there is none exactly when every slot is in use. */
  lemma {:induction false} LowestIsFree(users: Users, capacity: nat, from: nat)
    requires forall t: byte :: t < from ==> InUse(users, t)
    ensures match Lowest(users, capacity, from)
            case Some(s) => s < capacity && !InUse(users, s) && forall t: byte :: t < s ==> InUse(users, t)
            case None => forall t: byte :: t < capacity ==> InUse(users, t)
    decreases 256 - from
  {
    hide InUse;
    if from < 256 && from < capacity && InUse(users, from) {
      LowestIsFree(users, capacity, from + 1);
    }
  }

  class Registry {
    const capacity: nat
    var users: Users
    var disk: Users      // what the last successful save wrote

    constructor (c: nat, u: Users)
      ensures capacity == c && users == u && disk == u
    {
      capacity, users, disk := c, u, u;
    }

    method Save(fails: bool) returns (r: Result<(), StorageError>)
      modifies this`disk
      ensures r == if fails then Err(Io) else Ok(())
      ensures disk == if fails then old(disk) else users
    {
      if fails {
        return Err(Io);
      }
      disk := users;
      return Ok(());
    }

    /** The row is in memory even when the save then fails. */
    method StoreSlot(user: User, finger: Finger, slot: byte, fails: bool) returns (r: Result<(), StorageError>)
      modifies this
      ensures users == SetSlot(old(users), user, finger, slot)
      ensures r == if fails then Err(Io) else Ok(())
      ensures disk == if fails then old(disk) else users
    {
      var entry := if user in users then users[user] else map[];
      users := users[user := entry[finger := slot]];
      r := Save(fails);
    }

    method DropFinger(user: User, finger: Finger, fails: bool) returns (r: Result<Option<byte>, StorageError>)
      modifies this
      ensures users == RemoveFinger(old(users), user, finger)
      ensures r == if fails then Err(Io) else Ok(SlotOf(old(users), user, finger))
      ensures disk == if fails then old(disk) else users
    {
      var removed := None;
      if user in users {
        if finger in users[user] {
          removed := Some(users[user][finger]);
        }
        users := users[user := users[user] - {finger}];
      }
      if user in users && users[user] == map[] {
        users := users - {user};
      }
      ghost var was := old(users);
      assert users == RemoveFinger(was, user, finger) by {
        if user in was {
          var left := was[user] - {finger};
          assert was[user := left] - {user} == was - {user};
        }
      }
      var saved := Save(fails);
      if saved.Err? {
        return Err(Io);
      }
      return Ok(removed);
    }

    /** The lowest slot no row uses, of those both the sensor and a byte can number. */
    method AllocateSlot() returns (r: Result<byte, StorageError>)
      ensures r == match Lowest(users, capacity, 0)
                   case Some(slot) => Ok(slot)
                   case None => Err(NoFreeSlot(capacity))
    {
      hide InUse;
      var cap := if capacity < 256 then capacity else 256;
      for s := 0 to cap
        invariant Lowest(users, capacity, 0) == Lowest(users, capacity, s)
      {
        if !InUse(users, s) {
          return Ok(s);
        }
      }
      return Err(NoFreeSlot(capacity));
    }
  }
}
