/**
  The registry of users who have written to the bot (`save_user`): a record is
  created the first time an id is seen and never touched afterwards. The users
  file is an in-memory map here; the current time is a parameter.
 */
module Registry {
  import opened Wrappers

  /** What the chat platform tells the bot about a sender. */
  datatype Profile = Profile(username: Option<string>, firstName: Option<string>, lastName: Option<string>)

  /** One entry of the registry, with the time the user was first seen (ISO text). */
  datatype UserRecord = UserRecord(
    username: Option<string>,
    firstName: Option<string>,
    lastName: Option<string>,
    firstSeen: string)

  /** The registry after `save_user(id, profile)` at time `now`: insert if absent. */
  function Register(users: map<int, UserRecord>, id: int, profile: Profile, now: string): (r: map<int, UserRecord>)
    ensures r.Keys == users.Keys + {id}
    ensures forall u :: u in users ==> r[u] == users[u]
    ensures id !in users ==> r[id] == UserRecord(profile.username, profile.firstName, profile.lastName, now)
  {
    if id in users then users
    else users[id := UserRecord(profile.username, profile.firstName, profile.lastName, now)]
  }

  /** Registering an id that is already present changes nothing. */
  lemma RegisterIdempotent(users: map<int, UserRecord>, id: int, p: Profile, now: string, p': Profile, later: string)
    ensures Register(Register(users, id, p, now), id, p', later) == Register(users, id, p, now)
  {
  }

  /** Registration never overwrites: a record, once present, survives any later registration unchanged. */
  lemma RegisterKeepsRecords(users: map<int, UserRecord>, id: int, p: Profile, now: string, u: int)
    requires u in users
    ensures u in Register(users, id, p, now) && Register(users, id, p, now)[u] == users[u]
  {
  }
}
