/**
 * The user service: keyed lookup and in-place update of a user's order
 * statistics, over the user table (the JPA user repository as a map).
 */
module Users {
  import opened Wrappers
  import opened JavaInt
  import opened Entities

  /** Every record is stored under its own id, as the repository keys entities. */
  predicate WellKeyed(users: map<int, User>) {
    forall k :: k in users ==> users[k].id == k
  }

  /** The user table. */
  type UserTable = users: map<int, User> | WellKeyed(users)
    witness map[]

  /** What `updateUserStats` reports, and the table it leaves behind. */
  datatype StatsUpdate = StatsUpdate(found: bool, users: UserTable)

  /**
   * The effect of `updateUserStats(id, totalOrders, totalSpent)` on the table:
   * an absent id reports false and writes nothing; a present one has exactly
   * its two counters overwritten.
   */
  function SetStats(users: UserTable, id: int, totalOrders: int32, totalSpent: real): (u: StatsUpdate)
    ensures u.found <==> id in users
    ensures !u.found ==> u.users == users
    ensures u.users.Keys == users.Keys
    ensures u.found ==> u.users[id].totalOrders == totalOrders && u.users[id].totalSpent == totalSpent
    ensures u.found ==>
      var (before, after) := (users[id], u.users[id]);
      && after.id == before.id && after.email == before.email && after.name == before.name
      && after.loyaltyPoints == before.loyaltyPoints && after.orders == before.orders
    ensures forall k :: k in users && k != id ==> u.users[k] == users[k]
  {
    if id !in users then StatsUpdate(false, users)
    else
      var user := users[id].(totalOrders := totalOrders, totalSpent := totalSpent);
      StatsUpdate(true, users[id := user])
  }

  /** Writing the same counters twice leaves the table as writing them once. */
  lemma SetStatsIdempotent(users: UserTable, id: int, totalOrders: int32, totalSpent: real)
    ensures var once := SetStats(users, id, totalOrders, totalSpent);
            var twice := SetStats(once.users, id, totalOrders, totalSpent);
            twice.users == once.users && twice.found == once.found
  {
  }

  class UserService {
    /** The user repository's contents. */
    var users: UserTable

    constructor (users: UserTable)
      ensures this.users == users
    {
      this.users := users;
    }

    /** `getUserById`: the stored record for `id`, or `None` (Java's null) when there is none. */
    function GetUserById(id: int): (r: Option<User>)
      reads this
      ensures r.Some? <==> id in users
      ensures r.Some? ==> r.value == users[id] && r.value.id == id
    {
      if id in users then Some(users[id]) else None
    }

    /** `updateUserStats`: load the record, overwrite its two counters, write it back. */
    method UpdateUserStats(id: int, totalOrders: int32, totalSpent: real) returns (found: bool)
      modifies this
      ensures var u := SetStats(old(users), id, totalOrders, totalSpent);
              found == u.found && users == u.users
    {
      var user := GetUserById(id);
      if user.None? {
        return false;
      }
      var updated := user.value.(totalOrders := totalOrders);
      updated := updated.(totalSpent := totalSpent);
      users := users[updated.id := updated];
      return true;
    }

    /** `save`: put the record into the table under its id and hand it back. */
    method Save(user: User) returns (saved: User)
      modifies this
      ensures users == old(users)[user.id := user]
      ensures saved == user && GetUserById(user.id) == Some(user)
    {
      users := users[user.id := user];
      saved := user;
    }
  }
}
