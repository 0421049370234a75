/** The user REST handlers: the user list without the requester, the partial profile
    update and the status update, which load a user document, assign its fields one
    at a time and save it. */
module UserController {
  import opened Seqs
  import opened JsText

  type UserId = string

  /** What the user list returns of each user. */
  datatype UserListing = UserListing(id: UserId, username: string, email: string)

  /** `getUsers`: every user but the requester that the optional search keyword
      selects; the keyword's regular-expression match is the parameter `selected`. */
  function GetUsers(users: seq<UserListing>, requester: UserId, selected: UserListing -> bool): (r: seq<UserListing>)
    ensures forall i | 0 <= i < |r| :: r[i].id != requester && selected(r[i]) && r[i] in users
    ensures forall i | 0 <= i < |users| && users[i].id != requester && selected(users[i]) :: users[i] in r
  {
    Filter(users, (u: UserListing) => u.id != requester && selected(u))
  }

  /** The list keeps the stored order. */
  lemma GetUsersKeepsOrder(users: seq<UserListing>, requester: UserId, selected: UserListing -> bool)
    ensures IsSubsequence(GetUsers(users, requester, selected), users)
  {
    FilterIsSubsequence(users, (u: UserListing) => u.id != requester && selected(u));
  }

  /** Without a search term every other user is listed, in stored order. */
  lemma GetUsersWithoutSearch(users: seq<UserListing>, requester: UserId)
    ensures var r := GetUsers(users, requester, (u: UserListing) => true);
            && IsSubsequence(r, users)
            && forall u | u in users :: u in r <==> u.id != requester
  {
    GetUsersKeepsOrder(users, requester, (u: UserListing) => true);
  }

  /** The stored fields the two updates touch. */
  datatype Profile = Profile(username: string, email: string, profilePicture: string,
                             password: string, status: string, lastSeen: int)

  /** The profile update body; an empty string stands for a missing or falsy field. */
  datatype ProfileUpdate = ProfileUpdate(username: string, email: string, profilePicture: string, password: string)

  /** The password guard: present, and not blank once trimmed. */
  function SetsPassword(password: string): (r: bool)
    ensures r <==> !IsBlank(password)
  {
    TrimEmptyIffBlank(password);
    password != "" && Trim(password) != ""
  }

  /** The effect of `updateUserProfile` on the stored fields: a field is replaced
      only by a truthy value; a picture is stored as given, data URL or not; a password
      only when it is not blank once trimmed. */
  function UpdatedProfile(p: Profile, body: ProfileUpdate): (r: Profile)
    ensures r.status == p.status && r.lastSeen == p.lastSeen
    ensures r.username == (if body.username != "" then body.username else p.username)
    ensures r.email == (if body.email != "" then body.email else p.email)
    ensures r.profilePicture == (if body.profilePicture != "" then body.profilePicture else p.profilePicture)
    ensures r.password == (if !IsBlank(body.password) then body.password else p.password)
  {
    p.(username := if body.username != "" then body.username else p.username,
       email := if body.email != "" then body.email else p.email,
       profilePicture := if body.profilePicture != "" then body.profilePicture else p.profilePicture,
       password := if SetsPassword(body.password) then body.password else p.password)
  }

  /** An empty body leaves the profile as it was, and applying the same body twice is
      applying it once. */
  lemma UpdatedProfileFacts(p: Profile, body: ProfileUpdate)
    ensures body == ProfileUpdate("", "", "", "") ==> UpdatedProfile(p, body) == p
    ensures UpdatedProfile(UpdatedProfile(p, body), body) == UpdatedProfile(p, body)
    ensures forall q: Profile | q.username == p.username && q.email == p.email && q.profilePicture == p.profilePicture
                                && q.password == p.password && q.status == p.status && q.lastSeen == p.lastSeen
              :: UpdatedProfile(q, body) == UpdatedProfile(p, body)
  {
  }

  const StatusValues: set<string> := {"online", "offline", "away"}

  /** The status guard of `updateUserStatus`. */
  predicate ValidStatus(status: string) {
    status in StatusValues
  }

  /** A loaded user document. */
  class UserDocument {
    const id: UserId
    var username: string
    var email: string
    var profilePicture: string
    var password: string
    var status: string
    var lastSeen: int

    constructor (id: UserId, p: Profile)
      ensures this.id == id && Snapshot() == p
    {
      this.id := id;
      username, email, profilePicture := p.username, p.email, p.profilePicture;
      password, status, lastSeen := p.password, p.status, p.lastSeen;
    }

    function Snapshot(): Profile
      reads this
    {
      Profile(username, email, profilePicture, password, status, lastSeen)
    }

    /** The assignments of `updateUserProfile`, one field at a time. */
    method ApplyUpdate(body: ProfileUpdate)
      modifies this
      ensures Snapshot() == UpdatedProfile(old(Snapshot()), body)
    {
      // A field without a truthy value keeps what it had.
      username := if body.username != "" then body.username else username;
      email := if body.email != "" then body.email else email;
      // The source tells a data URL from a link only to log it; both are stored as given.
      profilePicture := if body.profilePicture != "" then body.profilePicture else profilePicture;
      password := if SetsPassword(body.password) then body.password else password;
    }

    /** The assignments of `updateUserStatus`. */
    method SetStatus(newStatus: string, now: int)
      modifies this
      ensures Snapshot() == old(Snapshot()).(status := newStatus, lastSeen := now)
    {
      status := newStatus;
      lastSeen := now;
    }
  }

  /** The reply of a successful profile update. */
  datatype ProfileReply = ProfileReply(id: UserId, username: string, email: string, profilePicture: string, status: string)

  /** Every stored document is filed under its own id, so two ids never share one. */
  ghost predicate FiledById(users: map<UserId, UserDocument>)
    reads users.Values
  {
    forall u | u in users :: users[u].id == u
  }

  /** `updateUserProfile`: 404 when the requester has no document; otherwise the
      document gets the partial update and the reply carries its new public fields.
      No other document changes. */
  method UpdateUserProfile(users: map<UserId, UserDocument>, requester: UserId, body: ProfileUpdate)
    returns (status: nat, reply: ProfileReply)
    requires FiledById(users)
    modifies users.Values
    ensures requester !in users ==> status == 404
    ensures requester in users ==>
              && status == 200
              && users[requester].Snapshot() == UpdatedProfile(old(users[requester].Snapshot()), body)
              && var p := users[requester].Snapshot();
                 reply == ProfileReply(requester, p.username, p.email, p.profilePicture, p.status)
    ensures forall u | u in users && u != requester :: users[u].Snapshot() == old(users[u].Snapshot())
  {
    if requester !in users {
      return 404, ProfileReply("", "", "", "", "");
    }
    var user := users[requester];
    user.ApplyUpdate(body);
    status := 200;
    reply := ProfileReply(user.id, user.username, user.email, user.profilePicture, user.status);
  }

  /** `updateUserStatus`: 400 for a status outside online/offline/away, checked before
      the document is looked up; 404 without a document; otherwise the status and the
      last-seen time are set. Nothing changes on either error. */
  method UpdateUserStatus(users: map<UserId, UserDocument>, requester: UserId, newStatus: string, now: int)
    returns (status: nat)
    requires FiledById(users)
    modifies users.Values
    ensures !ValidStatus(newStatus) ==> status == 400
    ensures ValidStatus(newStatus) && requester !in users ==> status == 404
    ensures ValidStatus(newStatus) && requester in users ==>
              status == 200 &&
              users[requester].Snapshot() == old(users[requester].Snapshot()).(status := newStatus, lastSeen := now)
    ensures status != 200 ==> forall u | u in users :: users[u].Snapshot() == old(users[u].Snapshot())
    ensures forall u | u in users && u != requester :: users[u].Snapshot() == old(users[u].Snapshot())
    ensures status == 200 ==> ValidStatus(users[requester].status)
  {
    if !ValidStatus(newStatus) {
      return 400;
    }
    if requester !in users {
      return 404;
    }
    var user := users[requester];
    user.SetStatus(newStatus, now);
    status := 200;
  }
}
