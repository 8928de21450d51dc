/**
 * The backend's database handle (`req.prisma`) as an object whose tables the
 * route handlers update in place.
 */
module Store {
  import opened Tables

  class Database {
    var users: seq<User>
    var alarms: seq<Alarm>
    var matches: seq<Match>
    var feedback: seq<Feedback>
    var clock: Timestamp
    var nextId: nat
    const defaults: UserDefaults

    /** The tables as one value. */
    function State(): (s: DbState)
      reads this
      ensures s.users == users && s.alarms == alarms && s.matches == matches && s.feedback == feedback
      ensures s.clock == clock && s.nextId == nextId && s.defaults == defaults
    {
      DbState(users, alarms, matches, feedback, clock, nextId, defaults)
    }

    ghost predicate Valid()
      reads this
    {
      Inv(State())
    }

    constructor (defaults: UserDefaults)
      ensures Valid() && State() == Empty(defaults)
    {
      users, alarms, matches, feedback := [], [], [], [];
      clock, nextId := 0, 0;
      this.defaults := defaults;
    }
  }
}
