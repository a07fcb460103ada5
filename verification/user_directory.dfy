/**
 * The user directory of the TeamFlow API: an in-memory list of user records
 * and a counter that hands out ids. Deleting a user only marks it inactive;
 * every read skips inactive users. Among active users an email is unique,
 * except that an update to the empty email is not checked.
 */
module UserDirectory {
  import opened Common

  /** A stored user; `avatar == None` is `null`, timestamps are clock readings. */
  datatype User = User(
    id: int,
    name: string,
    email: string,
    role: string,
    avatar: Option<string>,
    createdAt: nat,
    updatedAt: nat,
    isActive: bool)
  {
    /**
     * `User.update`: copies every key present in the patch except `id` and
     * `createdAt`, then stamps `updatedAt`.
     */
    function Update(patch: UserPatch, now: nat): (u: User)
      ensures u.id == id && u.createdAt == createdAt && u.updatedAt == now
      ensures u.name == (if patch.name.Some? then patch.name.value else name)
      ensures u.email == (if patch.email.Some? then patch.email.value else email)
      ensures u.role == (if patch.role.Some? then patch.role.value else role)
      ensures u.avatar == (if patch.avatar.Some? then patch.avatar.value else avatar)
      ensures u.isActive == (if patch.isActive.Some? then patch.isActive.value else isActive)
      ensures patch == EmptyPatch ==> u == this.(updatedAt := now)
    {
      this.(
        name := if patch.name.Some? then patch.name.value else name,
        email := if patch.email.Some? then patch.email.value else email,
        role := if patch.role.Some? then patch.role.value else role,
        avatar := if patch.avatar.Some? then patch.avatar.value else avatar,
        isActive := if patch.isActive.Some? then patch.isActive.value else isActive,
        updatedAt := now)
    }
  }

  /** The fields `create` reads; `None` is a field the caller left out. */
  datatype NewUser = NewUser(name: string, email: string, role: Option<string>, avatar: Option<string>)

  /**
   * A patch for `update`: one optional entry per key a caller may send.
   * `id` and `createdAt` may be sent but are never copied; `avatar: Some(None)`
   * sets the avatar to `null`.
   */
  datatype UserPatch = UserPatch(
    id: Option<int>,
    name: Option<string>,
    email: Option<string>,
    role: Option<string>,
    avatar: Option<Option<string>>,
    createdAt: Option<nat>,
    isActive: Option<bool>)

  const EmptyPatch := UserPatch(None, None, None, None, None, None, None)

  /** The errors the directory throws. */
  datatype UserError = DuplicateEmail | EmailInUse | UserNotFound
  {
    function Message(): string
    {
      match this
      case DuplicateEmail => "User with this email already exists"
      case EmailInUse => "Email already exists"
      case UserNotFound => "User not found"
    }
  }

  const DefaultRole := "member"

  /** The users the directory starts with. */
  const SampleUsers := [
    NewUser("John Doe", "john@teamflow.com", Some("admin"), None),
    NewUser("Jane Smith", "jane@teamflow.com", Some("manager"), None),
    NewUser("Mike Johnson", "mike@teamflow.com", Some("member"), None),
    NewUser("Sarah Wilson", "sarah@teamflow.com", Some("member"), None)
  ]

  /** The `User` constructor: an active record whose role defaults to member and avatar to null. */
  function NewRecord(id: int, data: NewUser, now: nat): (u: User)
    ensures u.id == id && u.name == data.name && u.email == data.email
    ensures u.role == (if data.role.Some? then data.role.value else DefaultRole)
    ensures u.avatar == data.avatar
    ensures u.isActive && u.createdAt == now && u.updatedAt == now
  {
    User(id, data.name, data.email, if data.role.Some? then data.role.value else DefaultRole,
         data.avatar, now, now, true)
  }

  function UserId(u: User): int { u.id }

  predicate IsActive(u: User) { u.isActive }

  /** The directory's invariant over its storage and counter. */
  ghost predicate Wf(users: seq<User>, nextId: int)
  {
    && 1 <= nextId
    && (forall k :: 0 <= k < |users| ==> 1 <= users[k].id < nextId)
    && IncreasingBy(users, UserId)
    && ActiveEmailsUnique(users)
  }

  /** No two active users share a non-empty email. */
  ghost predicate ActiveEmailsUnique(users: seq<User>)
  {
    forall i, j ::
      0 <= i < |users| && 0 <= j < |users| && i != j &&
      users[i].isActive && users[j].isActive && users[i].email != "" ==>
        users[i].email != users[j].email
  }

  // ---------------------------------------------------------------- reads

  /** `getAll`: the active users, in storage order. */
  function GetAll(users: seq<User>): (r: seq<User>)
    ensures forall u :: u in r <==> u in users && u.isActive
    ensures SubseqOf(r, users)
  {
    Filter(users, IsActive)
  }

  /** The index `getById` finds: the first active user with this id, or -1. */
  function IndexOfActive(users: seq<User>, id: int): (k: int)
    ensures -1 <= k < |users|
    ensures 0 <= k ==> users[k].id == id && users[k].isActive
    ensures k == -1 <==> forall j :: 0 <= j < |users| ==> !(users[j].id == id && users[j].isActive)
  {
    FindIndex(users, (u: User) => u.id == id && u.isActive)
  }

  /** `getById`: the active user with this id, if there is one. */
  function GetById(users: seq<User>, id: int): (r: Option<User>)
    ensures r.None? <==> forall j :: 0 <= j < |users| ==> !(users[j].id == id && users[j].isActive)
    ensures r.Some? ==> r.value in users && r.value.id == id && r.value.isActive
  {
    var k := IndexOfActive(users, id);
    if k < 0 then None else Some(users[k])
  }

  /** `getByEmail`: the first active user with exactly this email, if there is one. */
  function GetByEmail(users: seq<User>, email: string): (r: Option<User>)
    ensures r.None? <==> forall j :: 0 <= j < |users| ==> !(users[j].email == email && users[j].isActive)
    ensures r.Some? ==> r.value in users && r.value.email == email && r.value.isActive
    ensures r.Some? ==>
      exists k | 0 <= k < |users| ::
        && users[k] == r.value
        && forall j | 0 <= j < k :: !(users[j].email == email && users[j].isActive)
  {
    var k := FindIndex(users, (u: User) => u.email == email && u.isActive);
    if k < 0 then None else Some(users[k])
  }

  /** `getByRole`: the active users with exactly this role, in storage order. */
  function GetByRole(users: seq<User>, role: string): (r: seq<User>)
    ensures forall u :: u in r <==> u in users && u.role == role && u.isActive
    ensures SubseqOf(r, users)
  {
    Filter(users, (u: User) => u.role == role && u.isActive)
  }

  /** `toLowerCase` on one character (letters A to Z only). */
  function LowerChar(c: char): char
  {
    if 'A' <= c <= 'Z' then (c as int - 'A' as int + 'a' as int) as char else c
  }

  function Lower(s: string): string
  {
    seq(|s|, i requires 0 <= i < |s| => LowerChar(s[i]))
  }

  /** `hay.includes(needle)`. */
  predicate Includes(hay: string, needle: string)
    decreases |hay|
  {
    needle <= hay || (hay != [] && Includes(hay[1..], needle))
  }

  /** Whether a user matches an already lower-cased query. */
  predicate MatchesLowered(u: User, lowered: string)
  {
    Includes(Lower(u.name), lowered) || Includes(Lower(u.email), lowered)
  }

  /**
   * `search`: the active users whose name or email contains the query,
   * ignoring case, in storage order.
   */
  function Search(users: seq<User>, query: string): (r: seq<User>)
    ensures forall u :: u in r <==> u in users && u.isActive && MatchesLowered(u, Lower(query))
    ensures SubseqOf(r, users)
  {
    var lowered := Lower(query);
    Filter(users, (u: User) => u.isActive && MatchesLowered(u, lowered))
  }

  // ---------------------------------------------------------------- facts

  /** `needle` occurs in `hay` starting at position `i`. */
  ghost predicate OccursAt(hay: string, needle: string, i: int)
  {
    0 <= i && i + |needle| <= |hay| && hay[i..i + |needle|] == needle
  }

  /** `includes` is substring search: `needle` occurs somewhere in `hay`. */
  lemma {:induction false} IncludesIsSubstring(hay: string, needle: string)
    ensures Includes(hay, needle) <==> exists i :: OccursAt(hay, needle, i)
    decreases |hay|
  {
    if needle <= hay {
      assert OccursAt(hay, needle, 0);
    } else if hay == [] {
    } else {
      IncludesIsSubstring(hay[1..], needle);
      if exists i :: OccursAt(hay, needle, i) {
        var i :| OccursAt(hay, needle, i);
        OccurrenceShiftsDown(hay, needle, i);
      }
      if Includes(hay[1..], needle) {
        var i :| OccursAt(hay[1..], needle, i);
        OccurrenceShiftsUp(hay, needle, i);
      }
    }
  }

  /** An occurrence past the start of a text that `needle` does not begin is one in its tail. */
  lemma OccurrenceShiftsDown(hay: string, needle: string, i: int)
    requires hay != [] && !(needle <= hay) && OccursAt(hay, needle, i)
    ensures OccursAt(hay[1..], needle, i - 1)
  {
    assert hay[1..][i - 1..i - 1 + |needle|] == hay[i..i + |needle|];
  }

  /** An occurrence in the tail of a text is one in the text, one position later. */
  lemma OccurrenceShiftsUp(hay: string, needle: string, i: int)
    requires hay != [] && OccursAt(hay[1..], needle, i)
    ensures OccursAt(hay, needle, i + 1)
  {
    assert hay[1..][i..i + |needle|] == hay[i + 1..i + 1 + |needle|];
  }

  /** Lower-casing twice is lower-casing once. */
  lemma LowerIdempotent(s: string)
    ensures Lower(Lower(s)) == Lower(s)
  {
  }

  /** The search ignores the case of the query. */
  lemma SearchIgnoresQueryCase(users: seq<User>, query: string)
    ensures Search(users, Lower(query)) == Search(users, query)
  {
    LowerIdempotent(query);
    var lowered := Lower(query);
    FilterCongruent(users,
      (u: User) => u.isActive && MatchesLowered(u, Lower(lowered)),
      (u: User) => u.isActive && MatchesLowered(u, lowered));
  }

  /** An empty query matches every active user: `search("")` is `getAll()`. */
  lemma SearchEmptyIsGetAll(users: seq<User>)
    ensures Search(users, "") == GetAll(users)
  {
    assert Lower("") == "";
    FilterCongruent(users, (u: User) => u.isActive && MatchesLowered(u, ""), IsActive);
  }

  /** The views over the directory list users by increasing id, which is storage order. */
  lemma ViewsKeepIdOrder(users: seq<User>, nextId: int, role: string, query: string)
    requires Wf(users, nextId)
    ensures IncreasingBy(GetAll(users), UserId)
    ensures IncreasingBy(GetByRole(users, role), UserId)
    ensures IncreasingBy(Search(users, query), UserId)
  {
    SubseqKeepsIncreasing(GetAll(users), users, UserId);
    SubseqKeepsIncreasing(GetByRole(users, role), users, UserId);
    SubseqKeepsIncreasing(Search(users, query), users, UserId);
  }

  /** Ids are unique in a well-formed directory. */
  lemma IdsUnique(users: seq<User>, nextId: int, i: int, j: int)
    requires Wf(users, nextId)
    requires 0 <= i < |users| && 0 <= j < |users| && i != j
    ensures users[i].id != users[j].id
  {
  }

  /** Appending the record `create` builds keeps the invariant and uses a fresh id. */
  lemma CreateKeepsWf(users: seq<User>, nextId: int, data: NewUser, now: nat)
    requires Wf(users, nextId)
    requires GetByEmail(users, data.email).None?
    ensures Wf(users + [NewRecord(nextId, data, now)], nextId + 1)
    ensures forall u :: u in users ==> u.id < NewRecord(nextId, data, now).id
  {
  }

  /** Whether `update` refuses the patch because it moves the user onto another active user's email. */
  predicate EmailClash(users: seq<User>, user: User, patch: UserPatch)
  {
    patch.email.Some? && patch.email.value != "" && patch.email.value != user.email &&
    GetByEmail(users, patch.email.value).Some?
  }

  /** A patch that passes `update`'s email check keeps the invariant. */
  lemma UpdateKeepsWf(users: seq<User>, nextId: int, k: int, patch: UserPatch, now: nat)
    requires Wf(users, nextId)
    requires 0 <= k < |users| && users[k].isActive
    requires !EmailClash(users, users[k], patch)
    ensures Wf(users[k := users[k].Update(patch, now)], nextId)
  {
  }

  /** The record `delete` leaves behind. */
  function Deactivated(u: User, now: nat): User
  {
    u.(isActive := false, updatedAt := now)
  }

  /**
   * Soft-deleting an active user keeps the invariant, hides its id from
   * `getById`, and frees its email for a later `create`.
   */
  lemma DeleteKeepsWf(users: seq<User>, nextId: int, k: int, now: nat)
    requires Wf(users, nextId)
    requires 0 <= k < |users| && users[k].isActive
    ensures Wf(users[k := Deactivated(users[k], now)], nextId)
    ensures GetById(users[k := Deactivated(users[k], now)], users[k].id).None?
    ensures users[k].email != "" ==> GetByEmail(users[k := Deactivated(users[k], now)], users[k].email).None?
  {
  }

  /**
   * Creating Ann in a directory without her email gives an active member;
   * a second create with her email would be refused; after her soft delete
   * no read returns her id and her email is free again.
   */
  lemma SoftDeleteScenario(users: seq<User>, nextId: int, now: nat)
    requires Wf(users, nextId)
    requires GetByEmail(users, "ann@x.com").None?
    ensures var ann := NewRecord(nextId, NewUser("Ann", "ann@x.com", None, None), now);
      var created := users + [ann];
      var deleted := created[|users| := Deactivated(ann, now)];
      && ann.role == DefaultRole && ann.isActive
      && GetByEmail(created, "ann@x.com").Some?
      && (forall u :: u in GetAll(deleted) ==> u.id != ann.id)
      && GetById(deleted, ann.id).None?
      && GetByEmail(deleted, "ann@x.com").None?
  {
    var ann := NewRecord(nextId, NewUser("Ann", "ann@x.com", None, None), now);
    var created := users + [ann];
    CreateKeepsWf(users, nextId, NewUser("Ann", "ann@x.com", None, None), now);
    assert created[|users|] == ann;
    DeleteKeepsWf(created, nextId + 1, |users|, now);
  }

  // ---------------------------------------------------------------- service

  /** `userService` with its module-level `users` array and `nextId` counter. */
  class UserService {
    var users: seq<User>
    var nextId: int

    ghost predicate Valid()
      reads this
    {
      Wf(users, nextId)
    }

    /** The module start-up: the sample users get ids 1, 2, 3, 4. */
    constructor (now: nat)
      ensures Valid()
      ensures nextId == |SampleUsers| + 1
      ensures |users| == |SampleUsers|
      ensures forall k :: 0 <= k < |users| ==> users[k] == NewRecord(k + 1, SampleUsers[k], now)
    {
      var store: seq<User> := [];
      var id := 1;
      var i := 0;
      while i < |SampleUsers|
        invariant 0 <= i <= |SampleUsers|
        invariant id == i + 1 && |store| == i
        invariant forall k :: 0 <= k < i ==> store[k] == NewRecord(k + 1, SampleUsers[k], now)
        invariant Wf(store, id)
      {
        assert GetByEmail(store, SampleUsers[i].email).None? by {
          forall j | 0 <= j < |store| ensures store[j].email != SampleUsers[i].email {
            assert store[j].email == SampleUsers[j].email;
          }
        }
        CreateKeepsWf(store, id, SampleUsers[i], now);
        store := store + [NewRecord(id, SampleUsers[i], now)];
        id := id + 1;
        i := i + 1;
      }
      users := store;
      nextId := id;
    }

    /**
     * `create`: refuses an email an active user already has; otherwise
     * appends an active record with the next id and advances the counter.
     */
    method Create(data: NewUser, now: nat) returns (r: Result<User, UserError>)
      requires Valid()
      modifies this
      ensures Valid()
      ensures r.Err? <==> GetByEmail(old(users), data.email).Some?
      ensures r.Err? ==> r.error == DuplicateEmail && users == old(users) && nextId == old(nextId)
      ensures r.Ok? ==>
        && r.value == NewRecord(old(nextId), data, now)
        && users == old(users) + [r.value]
        && nextId == old(nextId) + 1
        && forall u :: u in old(users) ==> u.id < r.value.id
    {
      var existing := GetByEmail(users, data.email);
      if existing.Some? {
        return Err(DuplicateEmail);
      }
      CreateKeepsWf(users, nextId, data, now);
      var user := NewRecord(nextId, data, now);
      nextId := nextId + 1;
      users := users + [user];
      return Ok(user);
    }

    /**
     * `update`: refuses a missing or inactive id, and a non-empty new email
     * that another active user holds; otherwise patches the record in place.
     */
    method Update(id: int, patch: UserPatch, now: nat) returns (r: Result<User, UserError>)
      requires Valid()
      modifies this
      ensures Valid() && nextId == old(nextId)
      ensures GetById(old(users), id).None? ==> r == Err(UserNotFound) && users == old(users)
      ensures GetById(old(users), id).Some? && EmailClash(old(users), GetById(old(users), id).value, patch) ==>
        r == Err(EmailInUse) && users == old(users)
      ensures r.Ok? <==>
        GetById(old(users), id).Some? && !EmailClash(old(users), GetById(old(users), id).value, patch)
      ensures r.Ok? ==>
        var k := IndexOfActive(old(users), id);
        && 0 <= k
        && r.value == old(users)[k].Update(patch, now)
        && users == old(users)[k := r.value]
        && r.value.id == id && r.value.createdAt == old(users)[k].createdAt
    {
      var k := IndexOfActive(users, id);
      if k < 0 {
        return Err(UserNotFound);
      }
      var user := users[k];
      if patch.email.Some? && patch.email.value != "" && patch.email.value != user.email {
        var existing := GetByEmail(users, patch.email.value);
        if existing.Some? {
          return Err(EmailInUse);
        }
      }
      UpdateKeepsWf(users, nextId, k, patch, now);
      var updated := user.Update(patch, now);
      users := users[k := updated];
      return Ok(updated);
    }

    /**
     * `delete`: refuses a missing or inactive id; otherwise clears `isActive`
     * and stamps `updatedAt`, keeping the record in storage.
     */
    method Delete(id: int, now: nat) returns (r: Result<User, UserError>)
      requires Valid()
      modifies this
      ensures Valid() && nextId == old(nextId) && |users| == |old(users)|
      ensures r.Err? <==> GetById(old(users), id).None?
      ensures r.Err? ==> r.error == UserNotFound && users == old(users)
      ensures r.Ok? ==>
        var k := IndexOfActive(old(users), id);
        && 0 <= k
        && r.value == Deactivated(old(users)[k], now)
        && users == old(users)[k := r.value]
      ensures GetById(users, id).None?
      ensures r.Ok? && r.value.email != "" ==> GetByEmail(users, r.value.email).None?
    {
      var k := IndexOfActive(users, id);
      if k < 0 {
        return Err(UserNotFound);
      }
      DeleteKeepsWf(users, nextId, k, now);
      var user := Deactivated(users[k], now);
      users := users[k := user];
      return Ok(user);
    }
  }
}
