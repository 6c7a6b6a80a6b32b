/** The state-changing handlers of the user controller: `addUser` and the
    four handlers that add and delete User-Group and User-Interest relation
    records. Each handler is a method on the store; what it answers and the
    store it leaves behind are given by a function on a snapshot of the
    store, about which the lemmas below are stated. */
module UserController {
  import opened Common
  import opened GroupEntities
  import opened Store

  // What each handler does, on values.

  /** `addRelation`: BAD_REQUEST when an id is missing, NOT_FOUND when the user
      or the group does not exist, CONFLICT when they are already related;
      otherwise a new record, put in both the user's and the group's set. */
  ghost function AddRelationResult(s: Tables, userId: Option<Id>, groupId: Option<Id>, now: Timestamp)
    : (Response<Relation>, Tables)
  {
    if userId.None? || groupId.None? then (Response(BadRequest, Empty), s)
    else
      var u, g := userId.value, groupId.value;
      if u !in s.users || g !in s.groups then (Response(NotFound, Empty), s)
      else if RelationsFor(s.groupRelations, u, g) != {} then (Response(Conflict, Empty), s)
      else (Response(Created, Entity(Relation(s.nextId, u, g, now))), WithGroupRelation(s, u, g, now))
  }

  /** `deleteRelation`: BAD_REQUEST when an id is missing or the user or the
      group does not exist, NOT_FOUND when they are not related; otherwise the
      record leaves both sets and the table, and is answered. */
  ghost function DeleteRelationResult(s: Tables, userId: Option<Id>, groupId: Option<Id>)
    : (Response<Relation>, Tables)
  {
    if userId.None? || groupId.None? then (Response(BadRequest, Empty), s)
    else
      var u, g := userId.value, groupId.value;
      if u !in s.users || g !in s.groups then (Response(BadRequest, Empty), s)
      else if RelationsFor(s.groupRelations, u, g) == {} then (Response(NotFound, Empty), s)
      else
        var rid :| rid in RelationsFor(s.groupRelations, u, g);
        (Response(Ok, Entity(s.groupRelations[rid])), WithoutGroupRelation(s, u, g, rid))
  }

  /** `addInterestRelation`: as `addRelation`, on interests. */
  ghost function AddInterestRelationResult(s: Tables, userId: Option<Id>, interestId: Option<Id>, now: Timestamp)
    : (Response<Relation>, Tables)
  {
    if userId.None? || interestId.None? then (Response(BadRequest, Empty), s)
    else
      var u, i := userId.value, interestId.value;
      if u !in s.users || i !in s.interests then (Response(NotFound, Empty), s)
      else if RelationsFor(s.interestRelations, u, i) != {} then (Response(Conflict, Empty), s)
      else (Response(Created, Entity(Relation(s.nextId, u, i, now))), WithInterestRelation(s, u, i, now))
  }

  /** `deleteInterestRelation`: as `deleteRelation`, on interests. */
  ghost function DeleteInterestRelationResult(s: Tables, userId: Option<Id>, interestId: Option<Id>)
    : (Response<Relation>, Tables)
  {
    if userId.None? || interestId.None? then (Response(BadRequest, Empty), s)
    else
      var u, i := userId.value, interestId.value;
      if u !in s.users || i !in s.interests then (Response(BadRequest, Empty), s)
      else if RelationsFor(s.interestRelations, u, i) == {} then (Response(NotFound, Empty), s)
      else
        var rid :| rid in RelationsFor(s.interestRelations, u, i);
        (Response(Ok, Entity(s.interestRelations[rid])), WithoutInterestRelation(s, u, i, rid))
  }

  /** `addUser`. `sanitise` stands for the trimming and case folding of the
      body's fields; it fails (None) where they throw, for a null field or a
      phone number shorter than ten digits. The email is checked first, then
      the username; the conflicting value is answered. */
  ghost function AddUserResult(s: Tables, newUser: User, sanitise: User -> Option<User>): (Response<User>, Tables)
  {
    match sanitise(newUser)
    case None => (Response(InternalServerError, Empty), s)
    case Some(u) =>
      if EmailTaken(s.users, u.email) then (Response(Conflict, Text(u.email)), s)
      else if UsernameTaken(s.users, u.username) then (Response(Conflict, Text(u.username)), s)
      else (Response(Created, Entity(NewRow(u, s.nextId))), WithNewUser(s, u))
  }

  // The handlers.

  method AddRelation(db: Database, userId: Option<Id>, groupId: Option<Id>, now: Timestamp)
    returns (r: Response<Relation>)
    requires db.Valid()
    modifies db
    ensures db.Valid()
    ensures (r, db.Snapshot()) == AddRelationResult(old(db.Snapshot()), userId, groupId, now)
  {
    if userId.None? || groupId.None? {
      return Response(BadRequest, Empty);
    }
    var u, g := userId.value, groupId.value;
    if u !in db.users || g !in db.groups {
      return Response(NotFound, Empty);
    }
    var existing := db.FindGroupRelation(u, g);
    if existing.Some? {
      return Response(Conflict, Empty);
    }
    var relation := db.SaveGroupRelation(u, g, now);
    r := Response(Created, Entity(relation));
  }

  method DeleteRelation(db: Database, userId: Option<Id>, groupId: Option<Id>) returns (r: Response<Relation>)
    requires db.Valid()
    modifies db
    ensures db.Valid()
    ensures (r, db.Snapshot()) == DeleteRelationResult(old(db.Snapshot()), userId, groupId)
  {
    if userId.None? || groupId.None? {
      return Response(BadRequest, Empty);
    }
    var u, g := userId.value, groupId.value;
    if u !in db.users || g !in db.groups {
      return Response(BadRequest, Empty);
    }
    var relation := db.FindGroupRelation(u, g);
    if relation.None? {
      return Response(NotFound, Empty);
    }
    db.DeleteGroupRelation(u, g, relation.value.id);
    r := Response(Ok, Entity(relation.value));
  }

  method AddInterestRelation(db: Database, userId: Option<Id>, interestId: Option<Id>, now: Timestamp)
    returns (r: Response<Relation>)
    requires db.Valid()
    modifies db
    ensures db.Valid()
    ensures (r, db.Snapshot()) == AddInterestRelationResult(old(db.Snapshot()), userId, interestId, now)
  {
    if userId.None? || interestId.None? {
      return Response(BadRequest, Empty);
    }
    var u, i := userId.value, interestId.value;
    if u !in db.users || i !in db.interests {
      return Response(NotFound, Empty);
    }
    var existing := db.FindInterestRelation(u, i);
    if existing.Some? {
      return Response(Conflict, Empty);
    }
    var relation := db.SaveInterestRelation(u, i, now);
    r := Response(Created, Entity(relation));
  }

  method DeleteInterestRelation(db: Database, userId: Option<Id>, interestId: Option<Id>)
    returns (r: Response<Relation>)
    requires db.Valid()
    modifies db
    ensures db.Valid()
    ensures (r, db.Snapshot()) == DeleteInterestRelationResult(old(db.Snapshot()), userId, interestId)
  {
    if userId.None? || interestId.None? {
      return Response(BadRequest, Empty);
    }
    var u, i := userId.value, interestId.value;
    if u !in db.users || i !in db.interests {
      return Response(BadRequest, Empty);
    }
    var relation := db.FindInterestRelation(u, i);
    if relation.None? {
      return Response(NotFound, Empty);
    }
    db.DeleteInterestRelation(u, i, relation.value.id);
    r := Response(Ok, Entity(relation.value));
  }

  method AddUser(db: Database, newUser: User, sanitise: User -> Option<User>) returns (r: Response<User>)
    requires db.Valid()
    modifies db
    ensures db.Valid()
    ensures (r, db.Snapshot()) == AddUserResult(old(db.Snapshot()), newUser, sanitise)
  {
    var sanitised := sanitise(newUser);
    if sanitised.None? {
      return Response(InternalServerError, Empty);
    }
    var u := sanitised.value;
    var byEmail := db.FindByEmail(u.email);
    if byEmail.Some? {
      return Response(Conflict, Text(u.email));
    }
    var byUsername := db.FindByUsername(u.username);
    if byUsername.Some? {
      return Response(Conflict, Text(u.username));
    }
    var saved := db.SaveNewUser(u);
    r := Response(Created, Entity(saved));
  }

  // What the relation handlers promise.

  /** `addRelation` answers each status in exactly its case, and every answer
      but CREATED comes with an empty body and leaves the store as it was. */
  lemma AddRelationOutcome(s: Tables, userId: Option<Id>, groupId: Option<Id>, now: Timestamp)
    ensures var (r, s') := AddRelationResult(s, userId, groupId, now);
      && (r.status == BadRequest <==> userId.None? || groupId.None?)
      && (r.status == NotFound <==>
            userId.Some? && groupId.Some? && (userId.value !in s.users || groupId.value !in s.groups))
      && (r.status == Conflict <==>
            userId.Some? && groupId.Some? && userId.value in s.users && groupId.value in s.groups
            && RelationsFor(s.groupRelations, userId.value, groupId.value) != {})
      && (r.status in {BadRequest, NotFound, Conflict, Created})
      && (r.status != Created ==> r.body == Empty && s' == s)
  {
  }

  /** A CREATED `addRelation` answers a record for the pair with a fresh id;
      the record is in the table, in the user's groups and in the group's
      members, it is the pair's only record, and the store stays consistent. */
  lemma AddRelationCreates(s: Tables, userId: Option<Id>, groupId: Option<Id>, now: Timestamp)
    requires s.Valid()
    requires AddRelationResult(s, userId, groupId, now).0.status == Created
    ensures var (r, s') := AddRelationResult(s, userId, groupId, now);
      var u, g, n := userId.value, groupId.value, s.nextId;
      && n !in s.groupRelations
      && r.body == Entity(Relation(n, u, g, now))
      && s'.groupRelations == s.groupRelations[n := Relation(n, u, g, now)]
      && u in s'.users && s'.users[u].groups == s.users[u].groups + {n}
      && g in s'.groups && s'.groups[g].members == s.groups[g].members + {n}
      && RelationsFor(s'.groupRelations, u, g) == {n}
      && s'.interests == s.interests && s'.interestRelations == s.interestRelations && s'.userOrder == s.userOrder
      && s'.Valid()
  {
    WithGroupRelationValid(s, userId.value, groupId.value, now);
  }

  /** Adding the same relation again, at any later instant, is a CONFLICT. */
  lemma AddRelationTwiceConflicts(s: Tables, userId: Option<Id>, groupId: Option<Id>, now: Timestamp, later: Timestamp)
    requires s.Valid()
    requires AddRelationResult(s, userId, groupId, now).0.status == Created
    ensures var s' := AddRelationResult(s, userId, groupId, now).1;
      AddRelationResult(s', userId, groupId, later) == (Response(Conflict, Empty), s')
  {
    WithGroupRelationValid(s, userId.value, groupId.value, now);
  }

  /** `deleteRelation` answers each status in exactly its case, and every
      answer but OK comes with an empty body and leaves the store as it was. */
  lemma DeleteRelationOutcome(s: Tables, userId: Option<Id>, groupId: Option<Id>)
    ensures var (r, s') := DeleteRelationResult(s, userId, groupId);
      && (r.status == BadRequest <==>
            userId.None? || groupId.None? || userId.value !in s.users || groupId.value !in s.groups)
      && (r.status == NotFound <==>
            userId.Some? && groupId.Some? && userId.value in s.users && groupId.value in s.groups
            && RelationsFor(s.groupRelations, userId.value, groupId.value) == {})
      && (r.status in {BadRequest, NotFound, Ok})
      && (r.status != Ok ==> r.body == Empty && s' == s)
  {
  }

  /** An OK `deleteRelation` answers the pair's record and takes it out of
      the table and out of both sets; the pair then has no record. */
  lemma DeleteRelationRemoves(s: Tables, userId: Option<Id>, groupId: Option<Id>)
    requires s.Valid()
    requires DeleteRelationResult(s, userId, groupId).0.status == Ok
    ensures var (r, s') := DeleteRelationResult(s, userId, groupId);
      var u, g := userId.value, groupId.value;
      && r.body.Entity? && r.body.entity.id in s.groupRelations
      && RelationsFor(s.groupRelations, u, g) == {r.body.entity.id}
      && s.groupRelations[r.body.entity.id] == r.body.entity
      && r.body.entity.user == u && r.body.entity.target == g
      && s'.groupRelations == s.groupRelations - {r.body.entity.id}
      && u in s'.users && s'.users[u].groups == s.users[u].groups - {r.body.entity.id}
      && g in s'.groups && s'.groups[g].members == s.groups[g].members - {r.body.entity.id}
      && RelationsFor(s'.groupRelations, u, g) == {}
      && s'.nextId == s.nextId && s'.Valid()
  {
    var u, g := userId.value, groupId.value;
    var rid :| rid in RelationsFor(s.groupRelations, u, g);
    AtMostOneRecord(s.groupRelations, s.nextId, u, g, rid);
    assert DeleteRelationResult(s, userId, groupId) == (Response(Ok, Entity(s.groupRelations[rid])), WithoutGroupRelation(s, u, g, rid));
    WithoutGroupRelationValid(s, u, g, rid);
  }

  /** Deleting a relation twice: the second answer is NOT_FOUND. */
  lemma DeleteRelationTwiceNotFound(s: Tables, userId: Option<Id>, groupId: Option<Id>)
    requires s.Valid()
    requires DeleteRelationResult(s, userId, groupId).0.status == Ok
    ensures var s' := DeleteRelationResult(s, userId, groupId).1;
      DeleteRelationResult(s', userId, groupId) == (Response(NotFound, Empty), s')
  {
    DeleteRelationRemoves(s, userId, groupId);
  }

  /** Adding a relation and deleting it again answers the record just created
      and restores the store, except that the id is used up. */
  lemma AddThenDeleteRelation(s: Tables, userId: Option<Id>, groupId: Option<Id>, now: Timestamp)
    requires s.Valid()
    requires AddRelationResult(s, userId, groupId, now).0.status == Created
    ensures var (added, s1) := AddRelationResult(s, userId, groupId, now);
      DeleteRelationResult(s1, userId, groupId) == (Response(Ok, added.body), s.(nextId := s.nextId + 1))
  {
    var u, g := userId.value, groupId.value;
    WithGroupRelationValid(s, u, g, now);
    WithoutUndoesWithGroupRelation(s, u, g, now);
  }

  /** `addInterestRelation` answers each status in exactly its case, and every
      answer but CREATED comes with an empty body and leaves the store as it
      was. */
  lemma AddInterestRelationOutcome(s: Tables, userId: Option<Id>, interestId: Option<Id>, now: Timestamp)
    ensures var (r, s') := AddInterestRelationResult(s, userId, interestId, now);
      && (r.status == BadRequest <==> userId.None? || interestId.None?)
      && (r.status == NotFound <==>
            userId.Some? && interestId.Some? && (userId.value !in s.users || interestId.value !in s.interests))
      && (r.status == Conflict <==>
            userId.Some? && interestId.Some? && userId.value in s.users && interestId.value in s.interests
            && RelationsFor(s.interestRelations, userId.value, interestId.value) != {})
      && (r.status in {BadRequest, NotFound, Conflict, Created})
      && (r.status != Created ==> r.body == Empty && s' == s)
  {
  }

  /** A CREATED `addInterestRelation` answers a record for the pair with a
      fresh id; the record is in the table, in the user's interests and in the
      interest's `interested`, it is the pair's only record, and the store
      stays consistent. */
  lemma AddInterestRelationCreates(s: Tables, userId: Option<Id>, interestId: Option<Id>, now: Timestamp)
    requires s.Valid()
    requires AddInterestRelationResult(s, userId, interestId, now).0.status == Created
    ensures var (r, s') := AddInterestRelationResult(s, userId, interestId, now);
      var u, i, n := userId.value, interestId.value, s.nextId;
      && n !in s.interestRelations
      && r.body == Entity(Relation(n, u, i, now))
      && s'.interestRelations == s.interestRelations[n := Relation(n, u, i, now)]
      && u in s'.users && s'.users[u].interests == s.users[u].interests + {n}
      && i in s'.interests && s'.interests[i].interested == s.interests[i].interested + {n}
      && RelationsFor(s'.interestRelations, u, i) == {n}
      && s'.groups == s.groups && s'.groupRelations == s.groupRelations && s'.userOrder == s.userOrder
      && s'.Valid()
  {
    WithInterestRelationValid(s, userId.value, interestId.value, now);
  }

  /** Adding the same interest again, at any later instant, is a CONFLICT. */
  lemma AddInterestRelationTwiceConflicts(s: Tables, userId: Option<Id>, interestId: Option<Id>,
                                          now: Timestamp, later: Timestamp)
    requires s.Valid()
    requires AddInterestRelationResult(s, userId, interestId, now).0.status == Created
    ensures var s' := AddInterestRelationResult(s, userId, interestId, now).1;
      AddInterestRelationResult(s', userId, interestId, later) == (Response(Conflict, Empty), s')
  {
    WithInterestRelationValid(s, userId.value, interestId.value, now);
  }

  /** `deleteInterestRelation` answers each status in exactly its case, and
      every answer but OK comes with an empty body and leaves the store as it
      was. */
  lemma DeleteInterestRelationOutcome(s: Tables, userId: Option<Id>, interestId: Option<Id>)
    ensures var (r, s') := DeleteInterestRelationResult(s, userId, interestId);
      && (r.status == BadRequest <==>
            userId.None? || interestId.None? || userId.value !in s.users || interestId.value !in s.interests)
      && (r.status == NotFound <==>
            userId.Some? && interestId.Some? && userId.value in s.users && interestId.value in s.interests
            && RelationsFor(s.interestRelations, userId.value, interestId.value) == {})
      && (r.status in {BadRequest, NotFound, Ok})
      && (r.status != Ok ==> r.body == Empty && s' == s)
  {
  }

  /** An OK `deleteInterestRelation` answers the pair's record and takes it
      out of the table and out of both sets; the pair then has no record. */
  lemma DeleteInterestRelationRemoves(s: Tables, userId: Option<Id>, interestId: Option<Id>)
    requires s.Valid()
    requires DeleteInterestRelationResult(s, userId, interestId).0.status == Ok
    ensures var (r, s') := DeleteInterestRelationResult(s, userId, interestId);
      var u, i := userId.value, interestId.value;
      && r.body.Entity? && r.body.entity.id in s.interestRelations
      && RelationsFor(s.interestRelations, u, i) == {r.body.entity.id}
      && s.interestRelations[r.body.entity.id] == r.body.entity
      && r.body.entity.user == u && r.body.entity.target == i
      && s'.interestRelations == s.interestRelations - {r.body.entity.id}
      && u in s'.users && s'.users[u].interests == s.users[u].interests - {r.body.entity.id}
      && i in s'.interests && s'.interests[i].interested == s.interests[i].interested - {r.body.entity.id}
      && RelationsFor(s'.interestRelations, u, i) == {}
      && s'.nextId == s.nextId && s'.Valid()
  {
    var u, i := userId.value, interestId.value;
    var rid :| rid in RelationsFor(s.interestRelations, u, i);
    AtMostOneRecord(s.interestRelations, s.nextId, u, i, rid);
    assert DeleteInterestRelationResult(s, userId, interestId) == (Response(Ok, Entity(s.interestRelations[rid])), WithoutInterestRelation(s, u, i, rid));
    WithoutInterestRelationValid(s, u, i, rid);
  }

  /** Deleting an interest relation twice: the second answer is NOT_FOUND. */
  lemma DeleteInterestRelationTwiceNotFound(s: Tables, userId: Option<Id>, interestId: Option<Id>)
    requires s.Valid()
    requires DeleteInterestRelationResult(s, userId, interestId).0.status == Ok
    ensures var s' := DeleteInterestRelationResult(s, userId, interestId).1;
      DeleteInterestRelationResult(s', userId, interestId) == (Response(NotFound, Empty), s')
  {
    DeleteInterestRelationRemoves(s, userId, interestId);
  }

  /** Adding an interest relation and deleting it again answers the record
      just created and restores the store, except that the id is used up. */
  lemma AddThenDeleteInterestRelation(s: Tables, userId: Option<Id>, interestId: Option<Id>, now: Timestamp)
    requires s.Valid()
    requires AddInterestRelationResult(s, userId, interestId, now).0.status == Created
    ensures var (added, s1) := AddInterestRelationResult(s, userId, interestId, now);
      DeleteInterestRelationResult(s1, userId, interestId) == (Response(Ok, added.body), s.(nextId := s.nextId + 1))
  {
    var u, i := userId.value, interestId.value;
    WithInterestRelationValid(s, u, i, now);
    WithoutUndoesWithInterestRelation(s, u, i, now);
  }

  // What `addUser` promises.

  /** `addUser` fails with INTERNAL_SERVER_ERROR exactly when sanitising
      throws; the email is checked before the username, and the conflicting
      value is answered; every answer but CREATED leaves the store as it was. */
  lemma AddUserOutcome(s: Tables, newUser: User, sanitise: User -> Option<User>)
    ensures var (r, s') := AddUserResult(s, newUser, sanitise);
      && (r.status == InternalServerError <==> sanitise(newUser).None?)
      && (sanitise(newUser).Some? && EmailTaken(s.users, sanitise(newUser).value.email) ==>
            r == Response(Conflict, Text(sanitise(newUser).value.email)))
      && (sanitise(newUser).Some? && !EmailTaken(s.users, sanitise(newUser).value.email)
          && UsernameTaken(s.users, sanitise(newUser).value.username) ==>
            r == Response(Conflict, Text(sanitise(newUser).value.username)))
      && (r.status == Created <==>
            sanitise(newUser).Some? && !EmailTaken(s.users, sanitise(newUser).value.email)
            && !UsernameTaken(s.users, sanitise(newUser).value.username))
      && (r.status != Created ==> s' == s)
  {
  }

  /** A CREATED `addUser` stores the sanitised user under a fresh id, without
      relations, enumerated last; it is then what its email and its username
      look up, and the store stays consistent. */
  lemma AddUserCreates(s: Tables, newUser: User, sanitise: User -> Option<User>)
    requires s.Valid()
    requires AddUserResult(s, newUser, sanitise).0.status == Created
    ensures var (r, s') := AddUserResult(s, newUser, sanitise);
      var u := sanitise(newUser).value;
      && r.body.Entity? && r.body.entity.id == s.nextId && r.body.entity.id !in s.users
      && r.body.entity.email == u.email && r.body.entity.username == u.username
      && r.body.entity.groups == {} && r.body.entity.interests == {}
      && s'.users == s.users[s.nextId := r.body.entity]
      && s'.userOrder == s.userOrder + [s.nextId]
      && UserWithEmail(s'.users, u.email) == Some(r.body.entity)
      && UserWithUsername(s'.users, u.username) == Some(r.body.entity)
      && s'.Valid()
  {
    var u := sanitise(newUser).value;
    WithNewUserValid(s, u);
    var s' := WithNewUser(s, u);
    LookupUnique(s', s.nextId);
  }

  /** Posting the same body again answers CONFLICT with the email. */
  lemma AddUserTwiceConflicts(s: Tables, newUser: User, sanitise: User -> Option<User>)
    requires s.Valid()
    requires AddUserResult(s, newUser, sanitise).0.status == Created
    ensures var s' := AddUserResult(s, newUser, sanitise).1;
      AddUserResult(s', newUser, sanitise) == (Response(Conflict, Text(sanitise(newUser).value.email)), s')
  {
    var u := sanitise(newUser).value;
    var s' := WithNewUser(s, u);
    assert s'.users[s.nextId].email == u.email;
  }

  /** In a consistent store a user is the one its email and its username
      look up. */
  lemma LookupUnique(s: Tables, k: Id)
    requires s.Valid() && k in s.users
    ensures UserWithEmail(s.users, s.users[k].email) == Some(s.users[k])
    ensures UserWithUsername(s.users, s.users[k].username) == Some(s.users[k])
  {
  }
}
