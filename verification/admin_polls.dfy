/** The admin poll list: creator names and e-mails looked up among the
    users, and the open/close and delete buttons with their busy flags. */
module AdminPolls {
  import opened Models
  import opened Polls

  /** `users.findIndex(u => u.uid === uid)`: the first position with the
      uid, or -1. */
  function UserIndex(users: seq<User>, uid: string): (k: int)
    ensures -1 <= k < |users|
    ensures k == -1 <==> forall j :: 0 <= j < |users| ==> users[j].uid != uid
    ensures k >= 0 ==> users[k].uid == uid && forall j :: 0 <= j < k ==> users[j].uid != uid
  {
    if users == [] then -1
    else if users[0].uid == uid then 0
    else
      var k := UserIndex(users[1..], uid);
      if k == -1 then -1 else k + 1
  }

  /** `users.find(u => u.uid === uid)`. */
  function FindUser(users: seq<User>, uid: string): (r: Option<User>)
    ensures r.None? <==> forall j :: 0 <= j < |users| ==> users[j].uid != uid
    ensures r.Some? ==> r.value in users && r.value.uid == uid
    ensures r.Some? ==> exists k :: 0 <= k < |users| && users[k] == r.value
                                    && forall j :: 0 <= j < k ==> users[j].uid != uid
  {
    var k := UserIndex(users, uid);
    if k == -1 then None else Some(users[k])
  }

  const UnknownUser := "Unknown"

  /** `getUserName(uid)`: the first matching user's display name, or
      'Unknown' when no user matches or the name is missing or empty. */
  function GetUserName(users: seq<User>, uid: string): (name: string)
    ensures name != ""
    ensures (forall j :: 0 <= j < |users| ==> users[j].uid != uid) ==> name == UnknownUser
    ensures var k := UserIndex(users, uid);
            k >= 0 ==> name == (if Truthy(users[k].displayName) then users[k].displayName.value else UnknownUser)
  {
    var user := FindUser(users, uid);
    if user.Some? && Truthy(user.value.displayName) then user.value.displayName.value else UnknownUser
  }

  /** `getUserEmail(uid)`: the first matching user's e-mail, or 'Unknown'
      when no user matches or the e-mail is empty. */
  function GetUserEmail(users: seq<User>, uid: string): (email: string)
    ensures email != ""
    ensures (forall j :: 0 <= j < |users| ==> users[j].uid != uid) ==> email == UnknownUser
    ensures var k := UserIndex(users, uid);
            k >= 0 ==> email == (if users[k].email != "" then users[k].email else UnknownUser)
  {
    var user := FindUser(users, uid);
    if user.Some? && user.value.email != "" then user.value.email else UnknownUser
  }

  /** A user listed later under the same uid never changes the name or the
      e-mail shown. */
  lemma LaterDuplicatesIgnored(users: seq<User>, extra: User, uid: string)
    requires exists j :: 0 <= j < |users| && users[j].uid == uid
    ensures GetUserName(users + [extra], uid) == GetUserName(users, uid)
    ensures GetUserEmail(users + [extra], uid) == GetUserEmail(users, uid)
  {
    var k := UserIndex(users, uid);
    var k' := UserIndex(users + [extra], uid);
    assert (users + [extra])[k] == users[k];
    assert k' == k;
  }

  /** The admin poll list. */
  class AdminPollsComponent {
    const service: PollService
    var polls: seq<Poll>
    var users: seq<User>
    var isLoading: bool
    var isDeleting: map<string, bool>
    var isToggling: map<string, bool>

    constructor (service: PollService)
      ensures this.service == service && polls == [] && users == [] && isLoading
      ensures isDeleting == map[] && isToggling == map[]
    {
      this.service := service;
      polls, users, isLoading := [], [], true;
      isDeleting, isToggling := map[], map[];
    }

    /** The user list arrives. */
    method UsersLoaded(all: seq<User>)
      modifies this`users
      ensures users == all
    {
      users := all;
    }

    /** `toggleStatus(poll)`: nothing without an id; otherwise the poll is
        marked busy, the service toggles it, and the mark is cleared whether
        the call succeeded or not. The service's outcome is returned. */
    method ToggleStatus(poll: Poll) returns (r: Option<Outcome<ServiceError>>)
      modifies this`isToggling, service
      ensures service.currentUser == old(service.currentUser)
      ensures !Truthy(poll.id) ==>
        r.None? && isToggling == old(isToggling) && service.State() == old(service.State())
      ensures Truthy(poll.id) ==>
        && isToggling == old(isToggling)[poll.id.value := false]
        && r.Some?
        && (r.value, service.State()) == ToggleStep(old(service.State()), service.currentUser, poll.id.value)
      ensures old(Consistent(service.State())) ==> Consistent(service.State())
    {
      if !Truthy(poll.id) {
        return None;
      }
      var id := poll.id.value;
      isToggling := isToggling[id := true];
      var outcome := service.TogglePollStatus(id);
      isToggling := isToggling[id := false];
      r := Some(outcome);
    }

    /** `deletePoll(poll)`: nothing without an id or when the confirmation
        is declined; otherwise as `toggleStatus`, with the delete flag. */
    method DeletePoll(poll: Poll, confirmed: bool) returns (r: Option<Outcome<ServiceError>>)
      modifies this`isDeleting, service
      ensures service.currentUser == old(service.currentUser)
      ensures !(Truthy(poll.id) && confirmed) ==>
        r.None? && isDeleting == old(isDeleting) && service.State() == old(service.State())
      ensures Truthy(poll.id) && confirmed ==>
        && isDeleting == old(isDeleting)[poll.id.value := false]
        && r.Some?
        && (r.value, service.State()) == DeleteStep(old(service.State()), service.currentUser, poll.id.value)
      ensures old(Consistent(service.State())) ==> Consistent(service.State())
    {
      if !Truthy(poll.id) {
        return None;
      }
      if !confirmed {
        return None;
      }
      var id := poll.id.value;
      isDeleting := isDeleting[id := true];
      var outcome := service.DeletePoll(id);
      isDeleting := isDeleting[id := false];
      r := Some(outcome);
    }
  }
}
