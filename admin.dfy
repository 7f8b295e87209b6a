/**
  The two administrator commands, `/send <user_id> <message>` and
  `/checkuser [user_id]`, as the decision each one takes. Only the fixed
  administrator id may use them. The delivery itself and the wording of the
  report are not part of this model.
 */
module Admin {
  import opened Wrappers
  import opened Text
  import opened Registry
  import opened Conversation

  /** The one user id allowed to run the administrator commands. */
  const AdminUserId: int := 737163400

  /** What `/send` does. */
  datatype SendOutcome =
    | SendDenied                         // not the administrator
    | SendUsage                          // fewer than two arguments
    | TargetNotNumber                    // the target id is not an integer
    | Deliver(target: int, text: string) // hand `text` to the chat platform for `target`

  /** `/send` issued by `caller` with the words `args` after the command. */
  function Send(caller: int, args: seq<string>): (r: SendOutcome)
    ensures caller != AdminUserId ==> r == SendDenied
    ensures caller == AdminUserId ==> r != SendDenied
    ensures caller == AdminUserId && |args| < 2 ==> r == SendUsage
    ensures caller == AdminUserId && |args| >= 2 && ParseInt(args[0]).None? ==> r == TargetNotNumber
    ensures r.Deliver? <==> caller == AdminUserId && |args| >= 2 && ParseInt(args[0]).Some?
    ensures r.Deliver? ==> r.target == ParseInt(args[0]).value && r.text == Join(args[1..], " ")
  {
    if caller != AdminUserId then SendDenied
    else if |args| < 2 then SendUsage
    else match ParseInt(args[0])
      case None => TargetNotNumber
      case Some(target) => Deliver(target, Join(args[1..], " "))
  }

  /** An example: user 42 running `/send 7 hi` is refused. */
  lemma SendExample()
    ensures Send(42, ["7", "hi"]) == SendDenied
  {
  }

  /** What `/checkuser` reports. */
  datatype CheckOutcome =
    | CheckDenied                                                   // not the administrator
    | NoUsers                                                       // the registry is empty
    | AllUsers(users: map<int, UserRecord>)                         // no argument: every registered user
    | BadUserId                                                     // the argument is not an integer
    | UserNotFound(id: int)                                         // no such registered user
    | UserInfo(id: int, record: UserRecord, noteCount: nat)         // one user and how many notes they keep

  /** `/checkuser` issued by `caller` with arguments `args`, against the registry and the notes store. */
  function CheckUser(caller: int, args: seq<string>, users: map<int, UserRecord>,
                     notes: map<int, seq<string>>): (r: CheckOutcome)
    ensures caller != AdminUserId ==> r == CheckDenied
    ensures caller == AdminUserId ==> r != CheckDenied
    ensures caller == AdminUserId && users == map[] ==> r == NoUsers
    ensures caller == AdminUserId && users != map[] && args == [] ==> r == AllUsers(users)
    ensures caller == AdminUserId && users != map[] && |args| > 0 && ParseInt(args[0]).None? ==> r == BadUserId
    ensures r.AllUsers? ==> caller == AdminUserId && args == [] && r.users == users
    ensures r.UserNotFound? ==> r.id !in users
    ensures r.UserInfo? ==>
      && caller == AdminUserId && |args| > 0 && ParseInt(args[0]) == Some(r.id)
      && r.id in users && r.record == users[r.id] && r.noteCount == |NotesOf(notes, r.id)|
    ensures caller == AdminUserId && users != map[] && |args| > 0 && ParseInt(args[0]).Some? ==>
      (r.UserInfo? || r.UserNotFound?) && r.id == ParseInt(args[0]).value
  {
    if caller != AdminUserId then CheckDenied
    else if users == map[] then NoUsers
    else if args == [] then AllUsers(users)
    else match ParseInt(args[0])
      case None => BadUserId
      case Some(id) =>
        if id !in users then UserNotFound(id)
        else UserInfo(id, users[id], |NotesOf(notes, id)|)
  }
}
