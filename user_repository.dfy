/**
 * The part of the user repository that OTP verification uses: find a user by
 * phone number, and insert a new one. The `users` table is a map from phone
 * number to row (the unique index on phone_number makes the phone a key) and
 * the auto-increment counter that gives each inserted row its ID.
 */
module UserRepo {
  import opened Common
  import opened Models

  /** The table's invariant: rows filed under their own phone, IDs below the counter and pairwise distinct. */
  ghost predicate TableValid(users: map<string, User>, nextId: nat)
  {
    && nextId >= 1
    && (forall p :: p in users ==> users[p].phoneNumber == p && 1 <= users[p].id < nextId)
    && (forall p, q :: p in users && q in users && p != q ==> users[p].id != users[q].id)
  }

  /** `First` on phone_number: the row, gorm.ErrRecordNotFound, or the driver's error. */
  function FindUser(users: map<string, User>, phone: string, fault: Option<string>): Result<User, Error>
  {
    if fault.Some? then Failure(DbError(fault.value))
    else if phone in users then Success(users[phone])
    else Failure(RecordNotFound)
  }

  /** The outcome of an INSERT and the table after it. */
  datatype Inserted = Inserted(result: Result<User, Error>, users: map<string, User>, nextId: nat)

  /** INSERT of a user for `phone`: refused by the unique index when the phone has a row already. */
  function InsertUser(users: map<string, User>, nextId: nat, phone: string, createdAt: int, fault: Option<string>): (r: Inserted)
    requires TableValid(users, nextId)
    ensures TableValid(r.users, r.nextId)
    ensures r.result.Success? <==> fault.None? && phone !in users
    ensures r.result.Failure? ==> r.users == users && r.nextId == nextId
    ensures r.result.Success? ==>
      && r.result.value.phoneNumber == phone
      && r.result.value.createdAt == createdAt
      && r.users == users[phone := r.result.value]
      && (forall p :: p in users ==> users[p].id != r.result.value.id)
  {
    if fault.Some? then Inserted(Failure(DbError(fault.value)), users, nextId)
    else if phone in users then Inserted(Failure(UniqueViolation), users, nextId)
    else
      var u := User(nextId, phone, createdAt);
      Inserted(Success(u), users[phone := u], nextId + 1)
  }

  class UserRepository {
    var users: map<string, User>
    var nextId: nat

    ghost predicate Valid()
      reads this
    {
      TableValid(users, nextId)
    }

    constructor ()
      ensures Valid() && users == map[]
    {
      users := map[];
      nextId := 1;
    }

    /** Insert a user; on success the new row carries a fresh ID. */
    method Create(phoneNumber: string, createdAt: int, fault: Option<string>) returns (r: Result<User, Error>)
      requires Valid()
      modifies this
      ensures Valid()
      ensures var ins := InsertUser(old(users), old(nextId), phoneNumber, createdAt, fault);
              r == ins.result && users == ins.users && nextId == ins.nextId
    {
      var ins := InsertUser(users, nextId, phoneNumber, createdAt, fault);
      users, nextId := ins.users, ins.nextId;
      r := ins.result;
    }

    /** Look a user up by phone number. */
    function FindByPhoneNumber(phoneNumber: string, fault: Option<string>): (r: Result<User, Error>)
      reads this
      ensures r.Success? <==> fault.None? && phoneNumber in users
      ensures r.Success? ==> r.value == users[phoneNumber]
    {
      FindUser(users, phoneNumber, fault)
    }
  }
}
