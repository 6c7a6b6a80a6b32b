/** The persistent state the controllers work on: the user, group and interest
    tables, the two join tables (User-Group and User-Interest relation
    records), the order in which the user repository enumerates its users, and
    the id sequence the store draws new ids from. The tables are maps from id
    to record; the handlers in the controller modules update them in place. */
module Store {
  import opened Common
  import opened GroupEntities

  /** A user's cohort (an enumeration constant, compared by value). */
  type Classification = nat

  /** A user row. `groups` and `interests` hold the ids of the user's relation
      records; `majors` and `colleges` are what `User.getMajors()` and
      `User.getColleges()` yield, as group ids in iteration order. */
  datatype User = User(
    id: Id,
    email: Option<string>,
    username: Option<string>,
    passwordHash: Option<string>,
    classification: Classification,
    groups: set<Id>,
    interests: set<Id>,
    majors: seq<Id>,
    colleges: seq<Id>)

  /** An interest row; `interested` holds the ids of its relation records. */
  datatype Interest = Interest(id: Id, name: Option<string>, interested: set<Id>)

  /** A relation record (`R_UserGroup` or `R_UserInterest`): one user, one
      target (a group or an interest) and the instant it was created. Its
      identity is its id. */
  datatype Relation = Relation(id: Id, user: Id, target: Id, created: Timestamp)

  /** The ids of the records that relate `user` to `target`. */
  function RelationsFor(rels: map<Id, Relation>, user: Id, target: Id): set<Id>
  {
    set rid | rid in rels && rels[rid].user == user && rels[rid].target == target
  }

  /** The records of one kind of relation are keyed by their id, their ids and
      their targets' ids come from the id sequence, and no (user, target) pair
      has two of them. */
  ghost predicate RecordsValid(rels: map<Id, Relation>, nextId: nat)
  {
    && (forall rid | rid in rels :: rels[rid].id == rid && rid < nextId && rels[rid].target < nextId)
    && (forall r1, r2 | r1 in rels && r2 in rels && rels[r1].user == rels[r2].user && rels[r1].target == rels[r2].target :: r1 == r2)
  }

  /** Every User-Group record sits in its user's `groups` and, while its group
      exists, in the group's `members`; those sets hold nothing else. */
  ghost predicate GroupsLinked(users: map<Id, User>, groups: map<Id, GroupRow>, rels: map<Id, Relation>)
  {
    && (forall rid | rid in rels :: rels[rid].user in users && rid in users[rels[rid].user].groups)
    && (forall rid | rid in rels && rels[rid].target in groups :: rid in groups[rels[rid].target].members)
    && (forall u, rid | u in users && rid in users[u].groups :: rid in rels && rels[rid].user == u)
    && (forall g, rid | g in groups && rid in groups[g].members :: rid in rels && rels[rid].target == g)
  }

  /** The same for User-Interest records, the users' `interests` and the
      interests' `interested`. */
  ghost predicate InterestsLinked(users: map<Id, User>, interests: map<Id, Interest>, rels: map<Id, Relation>)
  {
    && (forall rid | rid in rels :: rels[rid].user in users && rid in users[rels[rid].user].interests)
    && (forall rid | rid in rels && rels[rid].target in interests :: rid in interests[rels[rid].target].interested)
    && (forall u, rid | u in users && rid in users[u].interests :: rid in rels && rels[rid].user == u)
    && (forall i, rid | i in interests && rid in interests[i].interested :: rid in rels && rels[rid].target == i)
  }

  /** Users are keyed by their id, the order enumerates each of them exactly
      once, and emails and usernames are unique (the store's unique columns;
      a null value is looked up as `IS NULL`, so it is unique too). */
  ghost predicate UsersValid(users: map<Id, User>, order: seq<Id>, nextId: nat)
  {
    && (forall k | k in users :: users[k].id == k && k < nextId)
    && (forall i | 0 <= i < |order| :: order[i] in users)
    && (forall k | k in users :: k in order)
    && (forall i, j | 0 <= i < j < |order| :: order[i] != order[j])
    && (forall a, b | a in users && b in users && users[a].email == users[b].email :: a == b)
    && (forall a, b | a in users && b in users && users[a].username == users[b].username :: a == b)
  }

  /** Stored groups are keyed by their id and have unique, non-null names. */
  ghost predicate GroupsValid(groups: map<Id, GroupRow>, nextId: nat)
  {
    && (forall k | k in groups :: groups[k].id == Some(k) && k < nextId && groups[k].name.Some?)
    && (forall a, b | a in groups && b in groups && groups[a].name == groups[b].name :: a == b)
  }

  ghost predicate InterestsValid(interests: map<Id, Interest>, nextId: nat)
  {
    forall k | k in interests :: interests[k].id == k && k < nextId
  }

  /** The invariant of the whole store. */
  ghost predicate StateValid(users: map<Id, User>, order: seq<Id>, groups: map<Id, GroupRow>,
                             interests: map<Id, Interest>, groupRels: map<Id, Relation>,
                             interestRels: map<Id, Relation>, nextId: nat)
  {
    && UsersValid(users, order, nextId)
    && GroupsValid(groups, nextId)
    && InterestsValid(interests, nextId)
    && RecordsValid(groupRels, nextId) && GroupsLinked(users, groups, groupRels)
    && RecordsValid(interestRels, nextId) && InterestsLinked(users, interests, interestRels)
  }

  predicate EmailTaken(users: map<Id, User>, email: Option<string>)
  {
    exists k | k in users :: users[k].email == email
  }

  predicate UsernameTaken(users: map<Id, User>, username: Option<string>)
  {
    exists k | k in users :: users[k].username == username
  }

  predicate NameTaken(groups: map<Id, GroupRow>, name: Option<string>)
  {
    exists k | k in groups :: groups[k].name == name
  }

  /** The whole store as one value: what a handler's effect is specified on. */
  datatype Tables = Tables(
    users: map<Id, User>,
    userOrder: seq<Id>,
    groups: map<Id, GroupRow>,
    interests: map<Id, Interest>,
    groupRelations: map<Id, Relation>,
    interestRelations: map<Id, Relation>,
    nextId: nat)
  {
    ghost predicate Valid()
    {
      StateValid(users, userOrder, groups, interests, groupRelations, interestRelations, nextId)
    }
  }

  // The changes the relation handlers make to the store.

  /** A new record relating user u to group g, in the table and in both sets. */
  function WithGroupRelation(s: Tables, u: Id, g: Id, now: Timestamp): Tables
    requires u in s.users && g in s.groups
  {
    var n := s.nextId;
    Tables(s.users[u := s.users[u].(groups := s.users[u].groups + {n})], s.userOrder,
           s.groups[g := s.groups[g].(members := s.groups[g].members + {n})], s.interests,
           s.groupRelations[n := Relation(n, u, g, now)], s.interestRelations, n + 1)
  }

  /** Record rid, relating user u to group g, removed from the table and from
      both sets. */
  function WithoutGroupRelation(s: Tables, u: Id, g: Id, rid: Id): Tables
    requires u in s.users && g in s.groups
  {
    Tables(s.users[u := s.users[u].(groups := s.users[u].groups - {rid})], s.userOrder,
           s.groups[g := s.groups[g].(members := s.groups[g].members - {rid})], s.interests,
           s.groupRelations - {rid}, s.interestRelations, s.nextId)
  }

  function WithInterestRelation(s: Tables, u: Id, i: Id, now: Timestamp): Tables
    requires u in s.users && i in s.interests
  {
    var n := s.nextId;
    Tables(s.users[u := s.users[u].(interests := s.users[u].interests + {n})], s.userOrder, s.groups,
           s.interests[i := s.interests[i].(interested := s.interests[i].interested + {n})],
           s.groupRelations, s.interestRelations[n := Relation(n, u, i, now)], n + 1)
  }

  function WithoutInterestRelation(s: Tables, u: Id, i: Id, rid: Id): Tables
    requires u in s.users && i in s.interests
  {
    Tables(s.users[u := s.users[u].(interests := s.users[u].interests - {rid})], s.userOrder, s.groups,
           s.interests[i := s.interests[i].(interested := s.interests[i].interested - {rid})],
           s.groupRelations, s.interestRelations - {rid}, s.nextId)
  }

  /** A user row as `save` stores it: with the given id and no relations. */
  function NewRow(u: User, id: Id): (row: User)
    ensures row.id == id && row.groups == {} && row.interests == {}
    ensures row.email == u.email && row.username == u.username && row.passwordHash == u.passwordHash
  {
    u.(id := id, groups := {}, interests := {}, majors := [], colleges := [])
  }

  /** A new user row, with the next id, appended to the user table. */
  function WithNewUser(s: Tables, u: User): Tables
  {
    var n := s.nextId;
    s.(users := s.users[n := NewRow(u, n)], userOrder := s.userOrder + [n], nextId := n + 1)
  }

  /** A group row as `save` stores it: with the given id and no member
      records (a request body never carries them). */
  function NewGroupRow(row: GroupRow, id: Id): (saved: GroupRow)
    ensures saved.id == Some(id) && saved.members == {}
    ensures saved.groupType == row.groupType && saved.name == row.name && saved.description == row.description
  {
    row.(id := Some(id), members := {})
  }

  /** A new group row, with the next id, in the group table. */
  function WithNewGroup(s: Tables, row: GroupRow): Tables
  {
    var n := s.nextId;
    s.(groups := s.groups[n := NewGroupRow(row, n)], nextId := n + 1)
  }

  /** Group g's row replaced by an updated one. */
  function WithGroupRow(s: Tables, g: Id, row: GroupRow): Tables
  {
    s.(groups := s.groups[g := row])
  }

  /** The user table once the records in `gone` are deleted: they leave
      every user's groups. */
  function DropGroupRecords(users: map<Id, User>, gone: set<Id>): (users': map<Id, User>)
    ensures users'.Keys == users.Keys
    ensures forall k | k in users :: users'[k] == users[k].(groups := users[k].groups - gone)
  {
    map k | k in users :: users[k].(groups := users[k].groups - gone)
  }

  /** Group g deleted. The members association cascades every operation, so
      g's member records are deleted with it and leave their users' groups. */
  function WithoutGroup(s: Tables, g: Id): Tables
    requires g in s.groups
  {
    var gone := s.groups[g].members;
    s.(users := DropGroupRecords(s.users, gone), groups := s.groups - {g},
       groupRelations := s.groupRelations - gone)
  }

  /** Some group other than g is named `name`: saving g under that name
      breaks the unique name column. */
  predicate NameTakenByOther(groups: map<Id, GroupRow>, g: Id, name: Option<string>)
  {
    exists k | k in groups && k != g :: groups[k].name == name
  }

  /** Removing a record just added, under an id no set and no table used,
      gives back the tables as they were, with the id used up. */
  lemma WithoutUndoesWithGroupRelation(s: Tables, u: Id, g: Id, now: Timestamp)
    requires u in s.users && g in s.groups
    requires s.nextId !in s.users[u].groups && s.nextId !in s.groups[g].members && s.nextId !in s.groupRelations
    ensures WithoutGroupRelation(WithGroupRelation(s, u, g, now), u, g, s.nextId) == s.(nextId := s.nextId + 1)
  {
    var n, s1 := s.nextId, WithGroupRelation(s, u, g, now);
    assert s1.users[u].groups - {n} == s.users[u].groups;
    assert s1.groups[g].members - {n} == s.groups[g].members;
    assert s1.users[u := s1.users[u].(groups := s1.users[u].groups - {n})] == s.users;
    assert s1.groups[g := s1.groups[g].(members := s1.groups[g].members - {n})] == s.groups;
    assert s1.groupRelations - {n} == s.groupRelations;
  }

  lemma WithoutUndoesWithInterestRelation(s: Tables, u: Id, i: Id, now: Timestamp)
    requires u in s.users && i in s.interests
    requires s.nextId !in s.users[u].interests && s.nextId !in s.interests[i].interested
    requires s.nextId !in s.interestRelations
    ensures WithoutInterestRelation(WithInterestRelation(s, u, i, now), u, i, s.nextId) == s.(nextId := s.nextId + 1)
  {
    var n, s1 := s.nextId, WithInterestRelation(s, u, i, now);
    assert s1.users[u].interests - {n} == s.users[u].interests;
    assert s1.interests[i].interested - {n} == s.interests[i].interested;
    assert s1.users[u := s1.users[u].(interests := s1.users[u].interests - {n})] == s.users;
    assert s1.interests[i := s1.interests[i].(interested := s1.interests[i].interested - {n})] == s.interests;
    assert s1.interestRelations - {n} == s.interestRelations;
  }

  /** What `findByEmail` and `findByUsername` answer. */
  ghost function UserWithEmail(users: map<Id, User>, email: Option<string>): Option<User>
  {
    if EmailTaken(users, email) then
      var k :| k in users && users[k].email == email; Some(users[k])
    else None
  }

  ghost function UserWithUsername(users: map<Id, User>, username: Option<string>): Option<User>
  {
    if UsernameTaken(users, username) then
      var k :| k in users && users[k].username == username; Some(users[k])
    else None
  }

  /** What `groupRepository.findByName` answers. */
  ghost function GroupWithName(groups: map<Id, GroupRow>, name: string): Option<GroupRow>
  {
    if NameTaken(groups, Some(name)) then
      var k :| k in groups && groups[k].name == Some(name); Some(groups[k])
    else None
  }

  /** The users in the order the repository enumerates them. */
  function Pool(users: map<Id, User>, order: seq<Id>): (pool: seq<User>)
    requires forall i | 0 <= i < |order| :: order[i] in users
    ensures |pool| == |order|
    ensures forall i | 0 <= i < |order| :: pool[i] == users[order[i]]
  {
    seq(|order|, i requires 0 <= i < |order| => users[order[i]])
  }

  /** In a consistent store the pool holds every stored user exactly once:
      each user occurs at the position of its id in the order, and no two
      positions hold the same user. */
  lemma PoolHoldsEachUserOnce(users: map<Id, User>, order: seq<Id>, nextId: nat)
    requires UsersValid(users, order, nextId)
    ensures var pool := Pool(users, order);
      && (forall i | 0 <= i < |pool| :: pool[i] in users.Values && pool[i].id == order[i])
      && (forall k | k in users :: exists i | 0 <= i < |pool| :: pool[i] == users[k])
      && (forall i, j | 0 <= i < j < |pool| :: pool[i] != pool[j])
  {
    var pool := Pool(users, order);
    forall k | k in users ensures exists i | 0 <= i < |pool| :: pool[i] == users[k] {
      var i :| 0 <= i < |order| && order[i] == k;
      assert pool[i] == users[k];
    }
  }

  class Database {
    var users: map<Id, User>
    var userOrder: seq<Id>
    var groups: map<Id, GroupRow>
    var interests: map<Id, Interest>
    var groupRelations: map<Id, Relation>
    var interestRelations: map<Id, Relation>
    /** The next id the store hands out (one sequence for every table). */
    var nextId: nat

    ghost predicate Valid()
      reads this
    {
      Snapshot().Valid()
    }

    function Snapshot(): Tables
      reads this
    {
      Tables(users, userOrder, groups, interests, groupRelations, interestRelations, nextId)
    }

    constructor ()
      ensures Valid()
      ensures users == map[] && userOrder == [] && groups == map[] && interests == map[]
      ensures groupRelations == map[] && interestRelations == map[]
    {
      users, userOrder, groups, interests := map[], [], map[], map[];
      groupRelations, interestRelations := map[], map[];
      nextId := 1;
    }

    /** `userRepository.findByEmail`. */
    method FindByEmail(email: Option<string>) returns (r: Option<User>)
      requires Valid()
      ensures r == UserWithEmail(users, email)
      ensures r.Some? ==> r.value.id in users && users[r.value.id] == r.value && r.value.email == email
    {
      if EmailTaken(users, email) {
        var k :| k in users && users[k].email == email;
        r := Some(users[k]);
      } else {
        r := None;
      }
    }

    /** `userRepository.findByUsername`. */
    method FindByUsername(username: Option<string>) returns (r: Option<User>)
      requires Valid()
      ensures r == UserWithUsername(users, username)
      ensures r.Some? ==> r.value.id in users && users[r.value.id] == r.value && r.value.username == username
    {
      if UsernameTaken(users, username) {
        var k :| k in users && users[k].username == username;
        r := Some(users[k]);
      } else {
        r := None;
      }
    }

    /** `findByUserAndGroup`: the record relating a user to a group, if any. */
    method FindGroupRelation(u: Id, g: Id) returns (r: Option<Relation>)
      requires Valid()
      ensures r.None? <==> RelationsFor(groupRelations, u, g) == {}
      ensures r.Some? ==> RelationsFor(groupRelations, u, g) == {r.value.id} && groupRelations[r.value.id] == r.value
    {
      var found := RelationsFor(groupRelations, u, g);
      if found == {} {
        r := None;
      } else {
        var rid :| rid in found;
        AtMostOneRecord(groupRelations, nextId, u, g, rid);
        r := Some(groupRelations[rid]);
      }
    }

    /** `findByUserAndInterest`: the record relating a user to an interest, if any. */
    method FindInterestRelation(u: Id, i: Id) returns (r: Option<Relation>)
      requires Valid()
      ensures r.None? <==> RelationsFor(interestRelations, u, i) == {}
      ensures r.Some? ==> RelationsFor(interestRelations, u, i) == {r.value.id} && interestRelations[r.value.id] == r.value
    {
      var found := RelationsFor(interestRelations, u, i);
      if found == {} {
        r := None;
      } else {
        var rid :| rid in found;
        AtMostOneRecord(interestRelations, nextId, u, i, rid);
        r := Some(interestRelations[rid]);
      }
    }

    /** Lines 4 to 6 of `addRelation`: the new record is saved, put in the
        user's groups and in the group's members, and both are saved. */
    method SaveGroupRelation(u: Id, g: Id, now: Timestamp) returns (rel: Relation)
      requires Valid()
      requires u in users && g in groups && RelationsFor(groupRelations, u, g) == {}
      modifies this
      ensures Valid()
      ensures rel == Relation(old(nextId), u, g, now)
      ensures Snapshot() == WithGroupRelation(old(Snapshot()), u, g, now)
    {
      rel := Relation(nextId, u, g, now);
      groupRelations := groupRelations[rel.id := rel];
      users := users[u := users[u].(groups := users[u].groups + {rel.id})];
      groups := groups[g := groups[g].(members := groups[g].members + {rel.id})];
      nextId := nextId + 1;
      assert Snapshot() == WithGroupRelation(old(Snapshot()), u, g, now);
      WithGroupRelationValid(old(Snapshot()), u, g, now);
    }

    /** Lines 4 to 6 of `deleteRelation`: record rid leaves the user's groups
        and the group's members, and is deleted. */
    method DeleteGroupRelation(u: Id, g: Id, rid: Id)
      requires Valid()
      requires u in users && g in groups && rid in RelationsFor(groupRelations, u, g)
      modifies this
      ensures Valid()
      ensures Snapshot() == WithoutGroupRelation(old(Snapshot()), u, g, rid)
    {
      users := users[u := users[u].(groups := users[u].groups - {rid})];
      groups := groups[g := groups[g].(members := groups[g].members - {rid})];
      groupRelations := groupRelations - {rid};
      assert Snapshot() == WithoutGroupRelation(old(Snapshot()), u, g, rid);
      WithoutGroupRelationValid(old(Snapshot()), u, g, rid);
    }

    /** The same steps of `addInterestRelation`. */
    method SaveInterestRelation(u: Id, i: Id, now: Timestamp) returns (rel: Relation)
      requires Valid()
      requires u in users && i in interests && RelationsFor(interestRelations, u, i) == {}
      modifies this
      ensures Valid()
      ensures rel == Relation(old(nextId), u, i, now)
      ensures Snapshot() == WithInterestRelation(old(Snapshot()), u, i, now)
    {
      rel := Relation(nextId, u, i, now);
      interestRelations := interestRelations[rel.id := rel];
      users := users[u := users[u].(interests := users[u].interests + {rel.id})];
      interests := interests[i := interests[i].(interested := interests[i].interested + {rel.id})];
      nextId := nextId + 1;
      assert Snapshot() == WithInterestRelation(old(Snapshot()), u, i, now);
      WithInterestRelationValid(old(Snapshot()), u, i, now);
    }

    /** The same steps of `deleteInterestRelation`. */
    method DeleteInterestRelation(u: Id, i: Id, rid: Id)
      requires Valid()
      requires u in users && i in interests && rid in RelationsFor(interestRelations, u, i)
      modifies this
      ensures Valid()
      ensures Snapshot() == WithoutInterestRelation(old(Snapshot()), u, i, rid)
    {
      users := users[u := users[u].(interests := users[u].interests - {rid})];
      interests := interests[i := interests[i].(interested := interests[i].interested - {rid})];
      interestRelations := interestRelations - {rid};
      assert Snapshot() == WithoutInterestRelation(old(Snapshot()), u, i, rid);
      WithoutInterestRelationValid(old(Snapshot()), u, i, rid);
    }

    /** `userRepository.save` of a new user: it receives the next id and no
        relations, and is enumerated after every earlier user. */
    method SaveNewUser(u: User) returns (saved: User)
      requires Valid()
      requires !EmailTaken(users, u.email) && !UsernameTaken(users, u.username)
      modifies this
      ensures Valid()
      ensures saved == NewRow(u, old(nextId)) && saved.id !in old(users)
      ensures Snapshot() == WithNewUser(old(Snapshot()), u)
    {
      saved := NewRow(u, nextId);
      users := users[nextId := saved];
      userOrder := userOrder + [nextId];
      nextId := nextId + 1;
      assert Snapshot() == WithNewUser(old(Snapshot()), u);
      WithNewUserValid(old(Snapshot()), u);
    }

    /** `groupRepository.findByName`. */
    method FindGroupByName(name: string) returns (r: Option<GroupRow>)
      requires Valid()
      ensures r == GroupWithName(groups, name)
      ensures r.Some? ==> r.value.id.Some? && r.value.id.value in groups && groups[r.value.id.value] == r.value
      ensures r.Some? ==> r.value.name == Some(name)
    {
      if NameTaken(groups, Some(name)) {
        var k :| k in groups && groups[k].name == Some(name);
        r := Some(groups[k]);
      } else {
        r := None;
      }
    }

    /** `groupRepository.save` of a new group: it receives the next id and no
        members. */
    method SaveNewGroup(row: GroupRow) returns (saved: GroupRow)
      requires Valid()
      requires row.name.Some? && !NameTaken(groups, row.name)
      modifies this
      ensures Valid()
      ensures saved == NewGroupRow(row, old(nextId)) && old(nextId) !in old(groups)
      ensures Snapshot() == WithNewGroup(old(Snapshot()), row)
    {
      saved := NewGroupRow(row, nextId);
      groups := groups[nextId := saved];
      nextId := nextId + 1;
      assert Snapshot() == WithNewGroup(old(Snapshot()), row);
      WithNewGroupValid(old(Snapshot()), row);
    }

    /** `groupRepository.save` of an existing group g with a changed name or
        description. The unique name column refuses a name another group
        has: nothing is written then and `saved` is false. */
    method SaveGroup(g: Id, row: GroupRow) returns (saved: bool)
      requires Valid()
      requires g in groups && row.id == groups[g].id && row.members == groups[g].members && row.name.Some?
      modifies this
      ensures Valid()
      ensures saved <==> !NameTakenByOther(old(groups), g, row.name)
      ensures Snapshot() == if saved then WithGroupRow(old(Snapshot()), g, row) else old(Snapshot())
    {
      if NameTakenByOther(groups, g, row.name) {
        return false;
      }
      groups := groups[g := row];
      saved := true;
      assert Snapshot() == WithGroupRow(old(Snapshot()), g, row);
      WithGroupRowValid(old(Snapshot()), g, row);
    }

    /** `groupRepository.delete`: the group, and by cascade its member
        records. */
    method DeleteGroup(g: Id)
      requires Valid()
      requires g in groups
      modifies this
      ensures Valid()
      ensures Snapshot() == WithoutGroup(old(Snapshot()), g)
    {
      var gone := groups[g].members;
      users := DropGroupRecords(users, gone);
      groups := groups - {g};
      groupRelations := groupRelations - gone;
      assert Snapshot() == WithoutGroup(old(Snapshot()), g);
      WithoutGroupValid(old(Snapshot()), g);
    }
  }

  // Each kind of change to the tables keeps the invariant.

  /** Saving a new user with an email and a username nobody has keeps the
      store consistent. */
  lemma WithNewUserValid(s: Tables, u: User)
    requires s.Valid()
    requires !EmailTaken(s.users, u.email) && !UsernameTaken(s.users, u.username)
    ensures s.nextId !in s.users
    ensures WithNewUser(s, u).Valid()
  {
    var n := s.nextId;
    var saved := NewRow(u, n);
    UsersValidAdd(s.users, s.userOrder, n, saved);
    GroupsValidBump(s.groups, n);
    InterestsValidBump(s.interests, n);
    RecordsBump(s.groupRelations, n);
    RecordsBump(s.interestRelations, n);
    NewUserLinked(s.users, s.groups, s.interests, s.groupRelations, s.interestRelations, saved);
  }

  /** A new user without relations keeps both kinds of links. */
  lemma NewUserLinked(users: map<Id, User>, groups: map<Id, GroupRow>, interests: map<Id, Interest>,
                      groupRels: map<Id, Relation>, interestRels: map<Id, Relation>, saved: User)
    requires GroupsLinked(users, groups, groupRels) && InterestsLinked(users, interests, interestRels)
    requires saved.id !in users && saved.groups == {} && saved.interests == {}
    ensures GroupsLinked(users[saved.id := saved], groups, groupRels)
    ensures InterestsLinked(users[saved.id := saved], interests, interestRels)
  {
  }

  /** Changing a user's relation sets, and nothing that identifies the user,
      keeps the user table valid, also once more ids are handed out. */
  lemma UsersValidRowUpdate(users: map<Id, User>, order: seq<Id>, nextId: nat, k: Id, row: User, nextId': nat)
    requires UsersValid(users, order, nextId) && k in users && nextId <= nextId'
    requires row.id == k && row.email == users[k].email && row.username == users[k].username
    ensures UsersValid(users[k := row], order, nextId')
  {
  }

  /** Changing a group's members keeps the group table valid. */
  lemma GroupsValidRowUpdate(groups: map<Id, GroupRow>, nextId: nat, k: Id, row: GroupRow, nextId': nat)
    requires GroupsValid(groups, nextId) && k in groups && nextId <= nextId'
    requires row.id == groups[k].id && row.name == groups[k].name
    ensures GroupsValid(groups[k := row], nextId')
  {
  }

  /** Changing an interest's relation set keeps the interest table valid. */
  lemma InterestsValidRowUpdate(interests: map<Id, Interest>, nextId: nat, k: Id, row: Interest, nextId': nat)
    requires InterestsValid(interests, nextId) && k in interests && nextId <= nextId'
    requires row.id == interests[k].id
    ensures InterestsValid(interests[k := row], nextId')
  {
  }

  lemma InterestsValidBump(interests: map<Id, Interest>, nextId: nat)
    requires InterestsValid(interests, nextId)
    ensures InterestsValid(interests, nextId + 1)
  {
  }

  lemma GroupsValidBump(groups: map<Id, GroupRow>, nextId: nat)
    requires GroupsValid(groups, nextId)
    ensures GroupsValid(groups, nextId + 1)
  {
  }

  /** Handing out an id that no record uses keeps the records valid. */
  lemma RecordsBump(rels: map<Id, Relation>, nextId: nat)
    requires RecordsValid(rels, nextId)
    ensures RecordsValid(rels, nextId + 1)
  {
  }

  /** Appending a new user with fresh id, email and username keeps the user
      table valid. */
  lemma UsersValidAdd(users: map<Id, User>, order: seq<Id>, nextId: nat, saved: User)
    requires UsersValid(users, order, nextId)
    requires saved.id == nextId
    requires !EmailTaken(users, saved.email) && !UsernameTaken(users, saved.username)
    ensures nextId !in users
    ensures UsersValid(users[nextId := saved], order + [nextId], nextId + 1)
  {
    var users', order' := users[nextId := saved], order + [nextId];
    forall i | 0 <= i < |order'| ensures order'[i] in users' {
      if i < |order| { assert order'[i] == order[i]; }
    }
    forall k | k in users' ensures k in order' {
      if k != nextId { assert k in order; }
    }
    forall i, j | 0 <= i < j < |order'| ensures order'[i] != order'[j] {
      if j < |order| { assert order'[i] == order[i] && order'[j] == order[j]; }
      else { assert order'[i] == order[i] && order[i] in users; }
    }
  }

  /** A new record, with the next id, for a pair that has none keeps the
      records valid and is then the pair's only record. */
  lemma RecordAdded(rels: map<Id, Relation>, n: nat, u: Id, t: Id, now: Timestamp)
    requires RecordsValid(rels, n) && t < n && RelationsFor(rels, u, t) == {}
    ensures n !in rels
    ensures RecordsValid(rels[n := Relation(n, u, t, now)], n + 1)
    ensures RelationsFor(rels[n := Relation(n, u, t, now)], u, t) == {n}
  {
    forall r | r in rels ensures !(rels[r].user == u && rels[r].target == t) {
      assert r !in RelationsFor(rels, u, t);
    }
  }

  /** Removing a record keeps the records valid and leaves its pair with none. */
  lemma RecordRemoved(rels: map<Id, Relation>, n: nat, u: Id, t: Id, rid: Id)
    requires RecordsValid(rels, n) && rid in RelationsFor(rels, u, t)
    ensures RecordsValid(rels - {rid}, n)
    ensures RelationsFor(rels - {rid}, u, t) == {}
  {
  }

  /** A pair's records, when the records are valid, number at most one. */
  lemma AtMostOneRecord(rels: map<Id, Relation>, nextId: nat, u: Id, t: Id, rid: Id)
    requires RecordsValid(rels, nextId)
    requires rid in RelationsFor(rels, u, t)
    ensures RelationsFor(rels, u, t) == {rid}
  {
  }

  lemma GroupLinkAdded(users: map<Id, User>, groups: map<Id, GroupRow>, rels: map<Id, Relation>, n: nat,
                       u: Id, g: Id, now: Timestamp)
    requires GroupsLinked(users, groups, rels) && u in users && g in groups && n !in rels
    ensures n !in users[u].groups && n !in groups[g].members
    ensures GroupsLinked(users[u := users[u].(groups := users[u].groups + {n})],
                         groups[g := groups[g].(members := groups[g].members + {n})],
                         rels[n := Relation(n, u, g, now)])
  {
  }

  lemma GroupLinkRemoved(users: map<Id, User>, groups: map<Id, GroupRow>, rels: map<Id, Relation>,
                         u: Id, g: Id, rid: Id)
    requires GroupsLinked(users, groups, rels) && u in users && g in groups && rid in RelationsFor(rels, u, g)
    ensures GroupsLinked(users[u := users[u].(groups := users[u].groups - {rid})],
                         groups[g := groups[g].(members := groups[g].members - {rid})],
                         rels - {rid})
  {
  }

  lemma InterestLinkAdded(users: map<Id, User>, interests: map<Id, Interest>, rels: map<Id, Relation>, n: nat,
                          u: Id, i: Id, now: Timestamp)
    requires InterestsLinked(users, interests, rels) && u in users && i in interests && n !in rels
    ensures n !in users[u].interests && n !in interests[i].interested
    ensures InterestsLinked(users[u := users[u].(interests := users[u].interests + {n})],
                            interests[i := interests[i].(interested := interests[i].interested + {n})],
                            rels[n := Relation(n, u, i, now)])
  {
  }

  lemma InterestLinkRemoved(users: map<Id, User>, interests: map<Id, Interest>, rels: map<Id, Relation>,
                            u: Id, i: Id, rid: Id)
    requires InterestsLinked(users, interests, rels) && u in users && i in interests && rid in RelationsFor(rels, u, i)
    ensures InterestsLinked(users[u := users[u].(interests := users[u].interests - {rid})],
                            interests[i := interests[i].(interested := interests[i].interested - {rid})],
                            rels - {rid})
  {
  }

  /** Changing a user's group records keeps the interest links, and the
      other way round. */
  lemma InterestLinksKept(users: map<Id, User>, interests: map<Id, Interest>, rels: map<Id, Relation>,
                          u: Id, row: User)
    requires InterestsLinked(users, interests, rels) && u in users && row.interests == users[u].interests
    ensures InterestsLinked(users[u := row], interests, rels)
  {
  }

  lemma GroupLinksKept(users: map<Id, User>, groups: map<Id, GroupRow>, rels: map<Id, Relation>,
                       u: Id, row: User)
    requires GroupsLinked(users, groups, rels) && u in users && row.groups == users[u].groups
    ensures GroupsLinked(users[u := row], groups, rels)
  {
  }

  lemma WithGroupRelationValid(s: Tables, u: Id, g: Id, now: Timestamp)
    requires s.Valid()
    requires u in s.users && g in s.groups && RelationsFor(s.groupRelations, u, g) == {}
    ensures s.nextId !in s.users[u].groups && s.nextId !in s.groups[g].members && s.nextId !in s.groupRelations
    ensures WithGroupRelation(s, u, g, now).Valid()
    ensures RelationsFor(WithGroupRelation(s, u, g, now).groupRelations, u, g) == {s.nextId}
  {
    var n := s.nextId;
    var row, grow := s.users[u].(groups := s.users[u].groups + {n}), s.groups[g].(members := s.groups[g].members + {n});
    UsersValidRowUpdate(s.users, s.userOrder, n, u, row, n + 1);
    GroupsValidRowUpdate(s.groups, n, g, grow, n + 1);
    InterestsValidBump(s.interests, n);
    RecordAdded(s.groupRelations, n, u, g, now);
    RecordsBump(s.interestRelations, n);
    GroupLinkAdded(s.users, s.groups, s.groupRelations, n, u, g, now);
    InterestLinksKept(s.users, s.interests, s.interestRelations, u, row);
  }

  lemma WithoutGroupRelationValid(s: Tables, u: Id, g: Id, rid: Id)
    requires s.Valid()
    requires u in s.users && g in s.groups && rid in RelationsFor(s.groupRelations, u, g)
    ensures WithoutGroupRelation(s, u, g, rid).Valid()
    ensures RelationsFor(WithoutGroupRelation(s, u, g, rid).groupRelations, u, g) == {}
  {
    var n := s.nextId;
    var row, grow := s.users[u].(groups := s.users[u].groups - {rid}), s.groups[g].(members := s.groups[g].members - {rid});
    UsersValidRowUpdate(s.users, s.userOrder, n, u, row, n);
    GroupsValidRowUpdate(s.groups, n, g, grow, n);
    RecordRemoved(s.groupRelations, n, u, g, rid);
    GroupLinkRemoved(s.users, s.groups, s.groupRelations, u, g, rid);
    InterestLinksKept(s.users, s.interests, s.interestRelations, u, row);
  }

  lemma WithInterestRelationValid(s: Tables, u: Id, i: Id, now: Timestamp)
    requires s.Valid()
    requires u in s.users && i in s.interests && RelationsFor(s.interestRelations, u, i) == {}
    ensures s.nextId !in s.users[u].interests && s.nextId !in s.interests[i].interested
    ensures s.nextId !in s.interestRelations
    ensures WithInterestRelation(s, u, i, now).Valid()
    ensures RelationsFor(WithInterestRelation(s, u, i, now).interestRelations, u, i) == {s.nextId}
  {
    var n := s.nextId;
    var row := s.users[u].(interests := s.users[u].interests + {n});
    var irow := s.interests[i].(interested := s.interests[i].interested + {n});
    UsersValidRowUpdate(s.users, s.userOrder, n, u, row, n + 1);
    InterestsValidRowUpdate(s.interests, n, i, irow, n + 1);
    GroupsValidBump(s.groups, n);
    RecordAdded(s.interestRelations, n, u, i, now);
    RecordsBump(s.groupRelations, n);
    InterestLinkAdded(s.users, s.interests, s.interestRelations, n, u, i, now);
    GroupLinksKept(s.users, s.groups, s.groupRelations, u, row);
  }

  lemma WithoutInterestRelationValid(s: Tables, u: Id, i: Id, rid: Id)
    requires s.Valid()
    requires u in s.users && i in s.interests && rid in RelationsFor(s.interestRelations, u, i)
    ensures WithoutInterestRelation(s, u, i, rid).Valid()
    ensures RelationsFor(WithoutInterestRelation(s, u, i, rid).interestRelations, u, i) == {}
  {
    var n := s.nextId;
    var row := s.users[u].(interests := s.users[u].interests - {rid});
    var irow := s.interests[i].(interested := s.interests[i].interested - {rid});
    UsersValidRowUpdate(s.users, s.userOrder, n, u, row, n);
    InterestsValidRowUpdate(s.interests, n, i, irow, n);
    RecordRemoved(s.interestRelations, n, u, i, rid);
    InterestLinkRemoved(s.users, s.interests, s.interestRelations, u, i, rid);
    GroupLinksKept(s.users, s.groups, s.groupRelations, u, row);
  }

  /** Saving a new group under a name nobody has keeps the store consistent. */
  lemma WithNewGroupValid(s: Tables, row: GroupRow)
    requires s.Valid()
    requires row.name.Some? && !NameTaken(s.groups, row.name)
    ensures s.nextId !in s.groups
    ensures WithNewGroup(s, row).Valid()
  {
    var n := s.nextId;
    GroupsValidAdd(s.groups, n, NewGroupRow(row, n));
    UsersValidBump(s.users, s.userOrder, n);
    InterestsValidBump(s.interests, n);
    RecordsBump(s.groupRelations, n);
    RecordsBump(s.interestRelations, n);
    NewGroupLinked(s.users, s.groups, s.groupRelations, n, NewGroupRow(row, n));
  }

  /** A group row with a new name or description and the same id and members
      keeps the store consistent, as long as no other group has the name. */
  lemma WithGroupRowValid(s: Tables, g: Id, row: GroupRow)
    requires s.Valid()
    requires g in s.groups && row.id == s.groups[g].id && row.members == s.groups[g].members && row.name.Some?
    requires !NameTakenByOther(s.groups, g, row.name)
    ensures WithGroupRow(s, g, row).Valid()
  {
    GroupsValidRename(s.groups, s.nextId, g, row);
    GroupLinksRowKept(s.users, s.groups, s.groupRelations, g, row);
  }

  /** Deleting a group together with its member records keeps the store
      consistent. */
  lemma WithoutGroupValid(s: Tables, g: Id)
    requires s.Valid()
    requires g in s.groups
    ensures WithoutGroup(s, g).Valid()
  {
    var gone := s.groups[g].members;
    var users' := DropGroupRecords(s.users, gone);
    UsersValidDrop(s.users, s.userOrder, s.nextId, gone);
    GroupLinksDropped(s.users, s.groups, s.groupRelations, g);
    InterestLinksDropped(s.users, s.interests, s.interestRelations, gone);
  }

  lemma UsersValidBump(users: map<Id, User>, order: seq<Id>, nextId: nat)
    requires UsersValid(users, order, nextId)
    ensures UsersValid(users, order, nextId + 1)
  {
  }

  /** A new group with a fresh id and a name nobody has keeps the group table
      valid. */
  lemma GroupsValidAdd(groups: map<Id, GroupRow>, nextId: nat, row: GroupRow)
    requires GroupsValid(groups, nextId)
    requires row.id == Some(nextId) && row.name.Some? && !NameTaken(groups, row.name)
    ensures nextId !in groups
    ensures GroupsValid(groups[nextId := row], nextId + 1)
  {
  }

  /** A group renamed to a name no other group has keeps the group table
      valid. */
  lemma GroupsValidRename(groups: map<Id, GroupRow>, nextId: nat, g: Id, row: GroupRow)
    requires GroupsValid(groups, nextId) && g in groups && row.id == groups[g].id && row.name.Some?
    requires !NameTakenByOther(groups, g, row.name)
    ensures GroupsValid(groups[g := row], nextId)
  {
    var groups' := groups[g := row];
    assert forall k | k in groups && k != g :: groups[k].name != row.name;
    forall a, b | a in groups' && b in groups' && groups'[a].name == groups'[b].name ensures a == b {
      if a != g && b != g {
        assert groups[a].name == groups[b].name;
      }
    }
  }

  /** No record targets a group under a fresh id, so a new group without
      members keeps the links. */
  lemma NewGroupLinked(users: map<Id, User>, groups: map<Id, GroupRow>, rels: map<Id, Relation>, n: nat,
                       row: GroupRow)
    requires GroupsLinked(users, groups, rels) && RecordsValid(rels, n) && n !in groups && row.members == {}
    ensures GroupsLinked(users, groups[n := row], rels)
  {
  }

  /** A group row with the same members keeps the links. */
  lemma GroupLinksRowKept(users: map<Id, User>, groups: map<Id, GroupRow>, rels: map<Id, Relation>,
                          g: Id, row: GroupRow)
    requires GroupsLinked(users, groups, rels) && g in groups && row.members == groups[g].members
    ensures GroupsLinked(users, groups[g := row], rels)
  {
  }

  /** Taking records out of the users' groups leaves what identifies the
      users as it was. */
  lemma UsersValidDrop(users: map<Id, User>, order: seq<Id>, nextId: nat, gone: set<Id>)
    requires UsersValid(users, order, nextId)
    ensures UsersValid(DropGroupRecords(users, gone), order, nextId)
  {
  }

  /** Deleting group g with its member records keeps the User-Group links. */
  lemma GroupLinksDropped(users: map<Id, User>, groups: map<Id, GroupRow>, rels: map<Id, Relation>, g: Id)
    requires GroupsLinked(users, groups, rels) && g in groups
    ensures var gone := groups[g].members;
      GroupsLinked(DropGroupRecords(users, gone), groups - {g}, rels - gone)
  {
    var gone := groups[g].members;
    var users', groups', rels' := DropGroupRecords(users, gone), groups - {g}, rels - gone;
    forall h, rid | h in groups' && rid in groups'[h].members ensures rid in rels' && rels'[rid].target == h {
      assert rid in rels && rels[rid].target == h;
    }
  }

  /** Taking records out of the users' groups keeps the User-Interest links. */
  lemma InterestLinksDropped(users: map<Id, User>, interests: map<Id, Interest>, rels: map<Id, Relation>,
                             gone: set<Id>)
    requires InterestsLinked(users, interests, rels)
    ensures InterestsLinked(DropGroupRecords(users, gone), interests, rels)
  {
  }
}
