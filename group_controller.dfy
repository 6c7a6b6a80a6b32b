/** The group controller (`/groups`): adding a group, looking one up by id
    or by name, deleting one and updating its name and description. Each
    handler's effect is specified by a function on the store's tables; the
    handler is proved against it and the lemmas below say what the functions
    promise. */
module GroupController {
  import opened Common
  import opened GroupEntities
  import opened Store
  import opened Strings

  /** The name and the description of a request body once normalised as
      `addGroup` does it: capitalised, then trimmed. An absent description
      stays absent. Neither starts nor ends with whitespace. */
  function Normalised(body: GroupRow): (row: GroupRow)
    requires body.name.Some?
    ensures row.name == Some(NormaliseAsWritten(body.name.value))
    ensures row.description == if body.description.Some? then Some(NormaliseAsWritten(body.description.value)) else None
    ensures row.groupType == body.groupType
    ensures var n := row.name.value; n == [] || (!IsWhitespace(n[0]) && !IsWhitespace(n[|n| - 1]))
    ensures row.description.Some? ==>
              var d := row.description.value; d == [] || (!IsWhitespace(d[0]) && !IsWhitespace(d[|d| - 1]))
  {
    AsWrittenTrimmed(body.name.value);
    AsWrittenTrimmed(if body.description.Some? then body.description.value else []);
    body.(name := Some(NormaliseAsWritten(body.name.value)),
          description := if body.description.Some? then Some(NormaliseAsWritten(body.description.value)) else None)
  }

  // What each handler answers and what it leaves in the store.

  ghost function AddGroupResult(s: Tables, body: GroupRow): (Response<GroupRow>, Tables)
  {
    if body.name.None? || body.name.value == [] then (Response(BadRequest, Empty), s)
    else
      var row := Normalised(body);
      if NameTaken(s.groups, row.name) then (Response(Conflict, Text(row.name)), s)
      else (Response(Created, Entity(NewGroupRow(row, s.nextId))), WithNewGroup(s, row))
  }

  ghost function GetGroupByIdResult(s: Tables, id: Option<Id>): Response<GroupRow>
  {
    if id.None? then Response(BadRequest, Empty)
    else if id.value in s.groups then Response(Ok, Entity(s.groups[id.value]))
    else Response(NotFound, Empty)
  }

  ghost function GetGroupByNameResult(s: Tables, name: Option<string>): Response<GroupRow>
  {
    if name.None? then Response(BadRequest, Empty)
    else match GroupWithName(s.groups, name.value)
      case Some(row) => Response(Ok, Entity(row))
      case None => Response(NotFound, Empty)
  }

  ghost function DeleteGroupResult(s: Tables, id: Option<Id>): (Response<GroupRow>, Tables)
  {
    if id.None? then (Response(BadRequest, Empty), s)
    else if id.value !in s.groups then (Response(NotFound, Empty), s)
    else (Response(Ok, Entity(s.groups[id.value])), WithoutGroup(s, id.value))
  }

  ghost function UpdateGroupResult(s: Tables, valuesToUpdate: Option<GroupRow>, id: Option<Id>)
    : (Response<GroupRow>, Tables)
  {
    if valuesToUpdate.None? || id.None? then (Response(BadRequest, Empty), s)
    else if id.value !in s.groups then (Response(NotFound, Empty), s)
    else
      var row := Merged(s.groups[id.value], valuesToUpdate.value);
      if NameTakenByOther(s.groups, id.value, row.name) then (Response(Conflict, Empty), s)
      else (Response(Ok, Entity(row)), WithGroupRow(s, id.value, row))
  }

  // The handlers.

  /** `addGroup`. The name is checked for presence before it is normalised. */
  method AddGroup(db: Database, body: GroupRow) returns (r: Response<GroupRow>)
    requires db.Valid()
    modifies db
    ensures db.Valid()
    ensures (r, db.Snapshot()) == AddGroupResult(old(db.Snapshot()), body)
  {
    if body.name.None? || body.name.value == [] {
      return Response(BadRequest, Empty);
    }
    var row := Normalised(body);
    var existing := db.FindGroupByName(row.name.value);
    if existing.Some? {
      return Response(Conflict, Text(row.name));
    }
    var saved := db.SaveNewGroup(row);
    r := Response(Created, Entity(saved));
  }

  /** `getGroupById`. */
  method GetGroupById(db: Database, id: Option<Id>) returns (r: Response<GroupRow>)
    requires db.Valid()
    ensures r == GetGroupByIdResult(db.Snapshot(), id)
  {
    if id.None? {
      return Response(BadRequest, Empty);
    }
    if id.value in db.groups {
      r := Response(Ok, Entity(db.groups[id.value]));
    } else {
      r := Response(NotFound, Empty);
    }
  }

  /** `getGroupByName`. */
  method GetGroupByName(db: Database, name: Option<string>) returns (r: Response<GroupRow>)
    requires db.Valid()
    ensures r == GetGroupByNameResult(db.Snapshot(), name)
  {
    if name.None? {
      return Response(BadRequest, Empty);
    }
    var found := db.FindGroupByName(name.value);
    if found.Some? {
      r := Response(Ok, Entity(found.value));
    } else {
      r := Response(NotFound, Empty);
    }
  }

  /** `deleteGroup`: the entity is cloned before it is deleted and the clone
      is answered. */
  method DeleteGroup(db: Database, id: Option<Id>) returns (r: Response<GroupRow>)
    requires db.Valid()
    modifies db
    ensures db.Valid()
    ensures (r, db.Snapshot()) == DeleteGroupResult(old(db.Snapshot()), id)
  {
    if id.None? {
      return Response(BadRequest, Empty);
    }
    var g := id.value;
    if g !in db.groups {
      return Response(NotFound, Empty);
    }
    var group := new GroupEntity.Load(db.groups[g], GroupEntityClass);
    var deleted := group.Clone();
    db.DeleteGroup(g);
    r := Response(Ok, Entity(deleted.Row()));
  }

  /** `updateGroup`: the stored entity takes the body's present name and
      description and is saved; a name another group holds makes the save
      fail with a data integrity violation, answered as CONFLICT. */
  method UpdateGroup(db: Database, valuesToUpdate: Option<GroupRow>, id: Option<Id>) returns (r: Response<GroupRow>)
    requires db.Valid()
    modifies db
    ensures db.Valid()
    ensures (r, db.Snapshot()) == UpdateGroupResult(old(db.Snapshot()), valuesToUpdate, id)
  {
    if valuesToUpdate.None? || id.None? {
      return Response(BadRequest, Empty);
    }
    var g := id.value;
    if g !in db.groups {
      return Response(NotFound, Empty);
    }
    var group := new GroupEntity.Load(db.groups[g], GroupEntityClass);
    var toCopy := new GroupEntity.Load(valuesToUpdate.value, GroupEntityClass);
    var updated := group.UpdateContents(toCopy);
    var row := updated.Row();
    var saved := db.SaveGroup(g, row);
    if !saved {
      return Response(Conflict, Empty);
    }
    r := Response(Ok, Entity(row));
  }

  // What the handlers promise.

  /** `addGroup` answers BAD_REQUEST exactly for a missing or empty name,
      CONFLICT with the normalised name exactly when a group already has it,
      and CREATED otherwise; only CREATED changes the store. */
  lemma AddGroupOutcome(s: Tables, body: GroupRow)
    ensures var (r, s') := AddGroupResult(s, body);
      && (r == Response(BadRequest, Empty) <==> body.name.None? || body.name.value == [])
      && (r.status == Conflict <==>
            body.name.Some? && body.name.value != [] && NameTaken(s.groups, Some(NormaliseAsWritten(body.name.value))))
      && (r.status == Conflict ==> r.body == Text(Some(NormaliseAsWritten(body.name.value))))
      && (r.status == Created <==>
            body.name.Some? && body.name.value != [] && !NameTaken(s.groups, Some(NormaliseAsWritten(body.name.value))))
      && (r.status != Created ==> s' == s)
  {
  }

  /** A CREATED `addGroup` stores the normalised group under a fresh id and
      without members; it is then what its id and its name look up, its name
      neither starts nor ends with whitespace, and the store stays
      consistent. */
  lemma AddGroupCreates(s: Tables, body: GroupRow)
    requires s.Valid()
    requires AddGroupResult(s, body).0.status == Created
    ensures var (r, s') := AddGroupResult(s, body);
      var name := NormaliseAsWritten(body.name.value);
      && r.body.Entity? && r.body.entity.id == Some(s.nextId) && s.nextId !in s.groups
      && r.body.entity.name == Some(name) && r.body.entity.members == {}
      && r.body.entity.groupType == body.groupType
      && s'.groups == s.groups[s.nextId := r.body.entity]
      && s'.users == s.users && s'.groupRelations == s.groupRelations
      && GetGroupByIdResult(s', Some(s.nextId)) == Response(Ok, r.body)
      && GetGroupByNameResult(s', Some(name)) == Response(Ok, r.body)
      && (name == [] || (!IsWhitespace(name[0]) && !IsWhitespace(name[|name| - 1])))
      && s'.Valid()
  {
    var row := Normalised(body);
    WithNewGroupValid(s, row);
    NameLookupUnique(WithNewGroup(s, row), s.nextId);
  }

  /** Posting the same body again answers CONFLICT with the name. */
  lemma AddGroupTwiceConflicts(s: Tables, body: GroupRow)
    requires AddGroupResult(s, body).0.status == Created
    ensures var s' := AddGroupResult(s, body).1;
      AddGroupResult(s', body) == (Response(Conflict, Text(Some(NormaliseAsWritten(body.name.value)))), s')
  {
    var s' := AddGroupResult(s, body).1;
    assert s'.groups[s.nextId].name == Some(NormaliseAsWritten(body.name.value));
  }

  /** The name is checked for emptiness before it is trimmed, so a non-empty
      name of whitespace only passes the check and a group with the empty
      name is stored. */
  lemma BlankNameStoredEmpty(s: Tables, body: GroupRow)
    requires body.name.Some? && body.name.value != []
    requires forall k | 0 <= k < |body.name.value| :: IsWhitespace(body.name.value[k])
    requires !NameTaken(s.groups, Some([]))
    ensures var (r, s') := AddGroupResult(s, body);
      && r.status == Created && r.body.Entity? && r.body.entity.name == Some([])
      && s'.groups[s.nextId].name == Some([])
  {
    AllWhitespaceNormalisesEmpty(body.name.value);
  }

  /** `getGroupById` answers OK with the stored group exactly when the id is
      present and stored. */
  lemma GetGroupByIdOutcome(s: Tables, id: Option<Id>)
    ensures var r := GetGroupByIdResult(s, id);
      && (r.status == BadRequest <==> id.None?)
      && (r.status == Ok <==> id.Some? && id.value in s.groups)
      && (r.status == Ok ==> r.body == Entity(s.groups[id.value]))
      && (r.status != Ok ==> r.body == Empty)
  {
  }

  /** `getGroupByName` answers OK exactly when some group has the name, and
      then with that group. */
  lemma GetGroupByNameOutcome(s: Tables, name: Option<string>)
    requires s.Valid()
    ensures var r := GetGroupByNameResult(s, name);
      && (r.status == BadRequest <==> name.None?)
      && (r.status == Ok <==> name.Some? && NameTaken(s.groups, name))
      && (r.status == Ok ==>
            (&& r.body.Entity? && r.body.entity.name == name
             && r.body.entity.id.Some? && r.body.entity.id.value in s.groups
             && s.groups[r.body.entity.id.value] == r.body.entity))
      && (r.status != Ok ==> r.body == Empty)
  {
  }

  /** In a consistent store a group is what its name looks up. */
  lemma NameLookupUnique(s: Tables, g: Id)
    requires s.Valid() && g in s.groups
    ensures GroupWithName(s.groups, s.groups[g].name.value) == Some(s.groups[g])
  {
  }

  /** `deleteGroup` answers BAD_REQUEST for a missing id, NOT_FOUND for an
      id not stored, and otherwise OK with the group as it was stored; only
      OK changes the store. */
  lemma DeleteGroupOutcome(s: Tables, id: Option<Id>)
    ensures var (r, s') := DeleteGroupResult(s, id);
      && (r.status == BadRequest <==> id.None?)
      && (r.status == NotFound <==> id.Some? && id.value !in s.groups)
      && (r.status == Ok <==> id.Some? && id.value in s.groups)
      && (r.status == Ok ==> r.body == Entity(s.groups[id.value]))
      && (r.status != Ok ==> r.body == Empty && s' == s)
  {
  }

  /** An OK `deleteGroup` removes the group and nothing else from the group
      table, deletes its member records, which then sit in no user's groups,
      keeps the store consistent, and leaves the id and the name looking up
      nothing, so that deleting again answers NOT_FOUND. */
  lemma DeleteGroupRemoves(s: Tables, id: Option<Id>)
    requires s.Valid()
    requires DeleteGroupResult(s, id).0.status == Ok
    ensures var (r, s') := DeleteGroupResult(s, id);
      var g := id.value;
      && s'.groups == s.groups - {g}
      && (forall rid | rid in s.groups[g].members :: rid !in s'.groupRelations)
      && (forall u, rid | u in s'.users && rid in s.groups[g].members :: rid !in s'.users[u].groups)
      && s'.users.Keys == s.users.Keys && s'.interestRelations == s.interestRelations
      && s'.Valid()
      && GetGroupByIdResult(s', id) == Response(NotFound, Empty)
      && GetGroupByNameResult(s', s.groups[g].name) == Response(NotFound, Empty)
      && DeleteGroupResult(s', id) == (Response(NotFound, Empty), s')
  {
    var g := id.value;
    WithoutGroupValid(s, g);
    var s' := WithoutGroup(s, g);
    forall k | k in s'.groups ensures s'.groups[k].name != s.groups[g].name {
      assert k in s.groups && k != g;
    }
  }

  /** `updateGroup` answers BAD_REQUEST when the body or the id is missing,
      NOT_FOUND for an id not stored, CONFLICT when the merged name belongs
      to another group, and OK with the merged group otherwise; only OK
      changes the store. */
  lemma UpdateGroupOutcome(s: Tables, valuesToUpdate: Option<GroupRow>, id: Option<Id>)
    ensures var (r, s') := UpdateGroupResult(s, valuesToUpdate, id);
      && (r.status == BadRequest <==> valuesToUpdate.None? || id.None?)
      && (r.status == NotFound <==> valuesToUpdate.Some? && id.Some? && id.value !in s.groups)
      && (r.status == Conflict <==>
            valuesToUpdate.Some? && id.Some? && id.value in s.groups
            && NameTakenByOther(s.groups, id.value, Merged(s.groups[id.value], valuesToUpdate.value).name))
      && (r.status == Ok ==> r.body == Entity(Merged(s.groups[id.value], valuesToUpdate.value)))
      && (r.status != Ok ==> r.body == Empty && s' == s)
  {
  }

  /** An OK `updateGroup` replaces the name and the description the body
      holds, keeps the others, the id, the type and the members, touches no
      other group, and keeps the store consistent. */
  lemma UpdateGroupUpdates(s: Tables, valuesToUpdate: Option<GroupRow>, id: Option<Id>)
    requires s.Valid()
    requires UpdateGroupResult(s, valuesToUpdate, id).0.status == Ok
    ensures var (r, s') := UpdateGroupResult(s, valuesToUpdate, id);
      var (g, stored, body) := (id.value, s.groups[id.value], valuesToUpdate.value);
      && g in s'.groups && s'.groups.Keys == s.groups.Keys
      && (forall k | k in s.groups && k != g :: s'.groups[k] == s.groups[k])
      && s'.groups[g].name == (if body.name.Some? then body.name else stored.name)
      && s'.groups[g].description == (if body.description.Some? then body.description else stored.description)
      && s'.groups[g].id == stored.id && s'.groups[g].groupType == stored.groupType
      && s'.groups[g].members == stored.members
      && s'.users == s.users && s'.groupRelations == s.groupRelations
      && s'.Valid()
  {
    var g := id.value;
    WithGroupRowValid(s, g, Merged(s.groups[g], valuesToUpdate.value));
  }

  /** Sending the same update twice answers the same and changes nothing the
      second time. */
  lemma UpdateGroupIdempotent(s: Tables, valuesToUpdate: Option<GroupRow>, id: Option<Id>)
    requires UpdateGroupResult(s, valuesToUpdate, id).0.status == Ok
    ensures var (r, s') := UpdateGroupResult(s, valuesToUpdate, id);
      UpdateGroupResult(s', valuesToUpdate, id) == (r, s')
  {
    var g, body := id.value, valuesToUpdate.value;
    var row := Merged(s.groups[g], body);
    var s' := WithGroupRow(s, g, row);
    MergedIdempotent(s.groups[g], body);
    assert s'.groups[g := row] == s'.groups;
    forall k | k in s'.groups && k != g ensures s'.groups[k].name != row.name {
      assert s.groups[k] == s'.groups[k];
    }
  }
}
