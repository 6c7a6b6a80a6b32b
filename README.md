# Cybuds backend core, modelled in Dafny

Cybuds is a social and academic networking backend. Users belong to groups
(colleges, majors, student-class cohorts) and declare interests. Each
membership is a relation record that holds one user, one target and a
timestamp. The service finds a requesting user's best match along one
chosen axis.

This project models the parts of the Spring controllers that make decisions:

- **Relation handlers.** The user controller's four handlers add and
  delete User-Group and User-Interest records. Each checks its parameters,
  resolves both ends, checks for an existing record, then updates the record
  table and both ends' sets in place (`user_controller.dfy`). The conflict
  order of `addUser` is modelled there too.
- **Scorer and matcher.** The affinity scorer `add` is a set of nested
  counting loops (`scoring.dfy`). The matcher `match` is one pass over all
  users (`matching.dfy`): it skips the requester, gates each candidate on
  the chosen axis and keeps a candidate only on a strictly greater score.
- **`GroupEntity`.** Its null-skipping `updateContents`, its
  `equals`/`hashCode` pair and its memberwise `clone`
  (`group_entity.dfy`).
- **Group controller.** Adding, looking up, deleting and updating groups
  on the group table (`group_controller.dfy`). The `capitalize` and
  `trimWhitespace` helpers it applies to names are in `strings.dfy`.
- **General controller.** The login decision table and the order in which
  registration refuses a body (`general_controller.dfy`).

The store (`store.dfy`) is a `Database` class. It holds the user, group and
interest tables and the two record tables as maps from id to row. It also
holds the order in which `findAll` enumerates users, and the id sequence
every table draws from.

Each handler is a method that changes the database in place. The method is
proved against a function, giving the answer and the new tables, on a
`Tables` snapshot. The store invariant `Tables.Valid()` ties records and
sets together:

- every record sits in its user's set and its target's set;
- those sets hold nothing else;
- a (user, target) pair has at most one record;
- emails, usernames and group names are unique.

Every state-changing operation keeps this invariant.

HTTP answers are a `Response` of a status and a body. The body is empty, an
entity, or the conflicting text. An uncaught `NullPointerException` is
answered INTERNAL_SERVER_ERROR. Nullable values are `Option`s.

### Behaviours worth knowing

- **Interest term of the score.** The scorer compares interest relation
  records by identity (`r1 == r2`, UserController.java:422), not the
  interests they name. Each record names one user, so two different users
  never share one, and the interest term is 0 for distinct users
  (`Scoring.DistinctUsersShareNoRecord`).
- **The three-user example.** `Matching.UserA`, `UserB` and `UserC` are
  matched on majors. A and B share a major and a classification; A and C
  share a major and a college. Both B and C score 2 against A
  (`Matching.ExampleScores`). The match goes to whichever of them is
  enumerated first (`Matching.ExampleBFirst`, `Matching.ExampleCFirst`).
- **Normalisation of group names.** `addGroup` applies `capitalize` and then
  `trimWhitespace` to the name and the description
  (GroupController.java:34-35). The model does the same, in the same order
  (`Strings.NormaliseAsWritten`). The consequence is recorded under
  Findings.
- **Group deletion.** `members` cascades every operation
  (GroupEntity.java:13), so deleting a group deletes its member records too.
  The model does this, and the records also leave their users' sets.
- **Group equality.** Groups compared with `==` in the scorer and the
  matcher are compared by id. Majors and colleges are lists of group ids on
  each user.

## Model

| member | source | states |
|---|---|---|
| GroupEntities.GroupEntity.Load | backend/code/src/main/java/com/yjohnson/backend/entities/Group/GroupEntity.java:11-20 | the entity materialised from a stored row has exactly that row as its state, with a members set of its own |
| GroupEntities.GroupEntity.Copy | backend/code/src/main/java/com/yjohnson/backend/entities/Group/GroupEntity.java:99-102 | the memberwise copy behind `clone`: every field equal, the members set shared by reference |
| GroupEntities.GroupEntity.Equals | backend/code/src/main/java/com/yjohnson/backend/entities/Group/GroupEntity.java:37-44 | `equals` holds iff it is the same object, or the other is non-null, of the same class and agrees on group type, id, name and description; the receiver's id (and name, once the ids agree) must be non-null where they are dereferenced |
| GroupEntities.EqualsReflexive | backend/code/src/main/java/com/yjohnson/backend/entities/Group/GroupEntity.java:39 | `equals` is reflexive whatever the fields hold |
| GroupEntities.EqualsIgnoresMembers | backend/code/src/main/java/com/yjohnson/backend/entities/Group/GroupEntity.java:37-44 | two objects of one class agreeing on the four compared fields are equal both ways, whatever their members |
| GroupEntities.GroupEntity.HashCode | backend/code/src/main/java/com/yjohnson/backend/entities/Group/GroupEntity.java:46-49 | `hashCode` is `Objects.hash` of the four compared fields, a 32-bit value |
| GroupEntities.EqualsImpliesEqualHash | backend/code/src/main/java/com/yjohnson/backend/entities/Group/GroupEntity.java:37-49 | objects that are `equals` have equal hash codes |
| GroupEntities.Int32 | backend/code/src/main/java/com/yjohnson/backend/entities/Group/GroupEntity.java:46-49 | Java `int` wrap-around: the result is in the 32-bit range and congruent to the exact value modulo 2^32 |
| GroupEntities.KeyHash | backend/code/src/main/java/com/yjohnson/backend/entities/Group/GroupEntity.java:46-49 | the hash of the four compared fields, a null field hashing to 0, is a 32-bit value |
| GroupEntities.GroupEntity.Clone | backend/code/src/main/java/com/yjohnson/backend/entities/Group/GroupEntity.java:99-102 | `clone` gives a fresh object, not the original, with equal fields and the same members set; it is `equals` to the original in both directions |
| GroupEntities.GroupEntity.UpdateContents | backend/code/src/main/java/com/yjohnson/backend/entities/Group/GroupEntity.java:104-108 | `updateContents` returns the receiver; a non-null name or description of the argument replaces the receiver's, a null one leaves it; id, group type and members unchanged |
| GroupEntities.MergedIdempotent | backend/code/src/main/java/com/yjohnson/backend/entities/Group/GroupEntity.java:104-108 | merging the same argument twice is merging it once |
| GroupEntities.RelationSet.constructor | backend/code/src/main/java/com/yjohnson/backend/entities/Group/GroupEntity.java:13-15 | a members set holds the given relation ids |
| Store.Database.constructor | backend/code/src/main/java/com/yjohnson/backend/entities/User/UserController.java:29-35 | an empty store is consistent |
| Store.Database.FindByEmail | backend/code/src/main/java/com/yjohnson/backend/entities/GeneralController.java:39 | `findByEmail` answers the one user with that email, or nothing |
| Store.Database.FindByUsername | backend/code/src/main/java/com/yjohnson/backend/entities/GeneralController.java:43 | `findByUsername` answers the one user with that username, or nothing |
| Store.Database.FindGroupRelation | backend/code/src/main/java/com/yjohnson/backend/entities/User/UserController.java:214 | `findByUserAndGroup` answers nothing exactly when the pair has no record, and otherwise the pair's only record |
| Store.Database.FindInterestRelation | backend/code/src/main/java/com/yjohnson/backend/entities/User/UserController.java:294 | the same for `findByUserAndInterest` |
| Store.Database.FindGroupByName | backend/code/src/main/java/com/yjohnson/backend/entities/Group/GroupController.java:36 | `findByName` answers the group with that name, or nothing |
| Store.Database.SaveGroupRelation | backend/code/src/main/java/com/yjohnson/backend/entities/User/UserController.java:217-221 | the new record takes the next id and enters the record table, the user's groups and the group's members; the store stays consistent |
| Store.Database.DeleteGroupRelation | backend/code/src/main/java/com/yjohnson/backend/entities/User/UserController.java:248-252 | the record leaves the user's groups, the group's members and the table; the store stays consistent |
| Store.Database.SaveInterestRelation | backend/code/src/main/java/com/yjohnson/backend/entities/User/UserController.java:297-301 | as `SaveGroupRelation`, for the user's interests and the interest's interested set |
| Store.Database.DeleteInterestRelation | backend/code/src/main/java/com/yjohnson/backend/entities/User/UserController.java:328-332 | as `DeleteGroupRelation`, for interests |
| Store.Database.SaveNewUser | backend/code/src/main/java/com/yjohnson/backend/entities/User/UserController.java:70 | a new user takes the next id, no relations, and is enumerated last; the store stays consistent |
| Store.Database.SaveNewGroup | backend/code/src/main/java/com/yjohnson/backend/entities/Group/GroupController.java:39 | a new group takes the next id and no members; the store stays consistent |
| Store.Database.SaveGroup | backend/code/src/main/java/com/yjohnson/backend/entities/Group/GroupController.java:119-124 | saving a group under a name another group holds writes nothing and fails (the unique name column); otherwise the row is replaced and the store stays consistent |
| Store.Database.DeleteGroup | backend/code/src/main/java/com/yjohnson/backend/entities/Group/GroupController.java:92 | the group goes, and with it (cascade on `members`) its member records, which leave every user's groups; the store stays consistent |
| Store.PoolHoldsEachUserOnce | backend/code/src/main/java/com/yjohnson/backend/entities/User/UserController.java:356-357 | in a consistent store the users `getAllUsers` enumerates hold every stored user, each exactly once |
| Store.WithGroupRelationValid | backend/code/src/main/java/com/yjohnson/backend/entities/User/UserController.java:214-221 | adding a record for an unrelated pair keeps the store consistent, and the pair then has exactly the new record |
| Store.WithoutGroupRelationValid | backend/code/src/main/java/com/yjohnson/backend/entities/User/UserController.java:245-252 | removing the pair's record keeps the store consistent and leaves the pair with none |
| Store.WithInterestRelationValid | backend/code/src/main/java/com/yjohnson/backend/entities/User/UserController.java:294-301 | the same as `WithGroupRelationValid`, for interests |
| Store.WithoutInterestRelationValid | backend/code/src/main/java/com/yjohnson/backend/entities/User/UserController.java:325-332 | the same as `WithoutGroupRelationValid`, for interests |
| Store.WithoutUndoesWithGroupRelation | backend/code/src/main/java/com/yjohnson/backend/entities/User/UserController.java:217-221 | removing a just-added record gives back every table as it was, with one id used up |
| Store.WithoutUndoesWithInterestRelation | backend/code/src/main/java/com/yjohnson/backend/entities/User/UserController.java:297-301 | the same, for interests |
| Store.WithNewUserValid | backend/code/src/main/java/com/yjohnson/backend/entities/User/UserController.java:65-70 | saving a user whose email and username nobody has keeps the store consistent |
| Store.WithNewGroupValid | backend/code/src/main/java/com/yjohnson/backend/entities/Group/GroupController.java:36-39 | saving a group under a name nobody has keeps the store consistent |
| Store.WithGroupRowValid | backend/code/src/main/java/com/yjohnson/backend/entities/Group/GroupController.java:117-119 | a group row with the same id and members and a name no other group has keeps the store consistent |
| Store.WithoutGroupValid | backend/code/src/main/java/com/yjohnson/backend/entities/Group/GroupController.java:92 | deleting a group with its member records keeps the store consistent |
| Store.AtMostOneRecord | backend/code/src/main/java/com/yjohnson/backend/entities/User/UserController.java:214-217 | in a consistent store a (user, target) pair has at most one record |
| Scoring.Add | backend/code/src/main/java/com/yjohnson/backend/entities/User/UserController.java:417-449 | `add` computes the score: the records both users hold, the pairs of equal majors, the pairs of equal colleges, plus 1 for equal classifications |
| Scoring.CountEqualPairs | backend/code/src/main/java/com/yjohnson/backend/entities/User/UserController.java:426-441 | the nested loops over two group lists count the index pairs holding equal ids |
| Scoring.OneMoreRecordCompared | backend/code/src/main/java/com/yjohnson/backend/entities/User/UserController.java:420-424 | one more outer record adds one to the count exactly when the other user holds it |
| Scoring.PairCountSymmetric | backend/code/src/main/java/com/yjohnson/backend/entities/User/UserController.java:428-441 | counting equal pairs does not depend on which list is outer |
| Scoring.ScoreSymmetric | backend/code/src/main/java/com/yjohnson/backend/entities/User/UserController.java:417-449 | the score is symmetric (it is a `nat`, so non-negative) |
| Scoring.PairCountPositive | backend/code/src/main/java/com/yjohnson/backend/entities/User/UserController.java:428-441 | two lists that share an id count at least one pair |
| Scoring.DistinctUsersShareNoRecord | backend/code/src/main/java/com/yjohnson/backend/entities/User/UserController.java:420-424 | in a consistent store two different users hold no common interest record, so the interest term of their score is 0 |
| Matching.Match | backend/code/src/main/java/com/yjohnson/backend/entities/User/UserController.java:348-408 | BAD_REQUEST without an id, NOT_FOUND for an unknown requester, otherwise OK with the best match or an empty body; a returned user is stored, is not the requester and passes the gate |
| Matching.Scan | backend/code/src/main/java/com/yjohnson/backend/entities/User/UserController.java:353-401 | the loop keeps `t <= same`, `same` the highest gated score so far and `temp` the first user reaching it, and ends with the best match |
| Matching.RescoreIfShared | backend/code/src/main/java/com/yjohnson/backend/entities/User/UserController.java:367-389 | the gate loops rescore the candidate exactly when the two group lists share an id, and otherwise leave the stale `t` |
| Matching.BestMatchStep | backend/code/src/main/java/com/yjohnson/backend/entities/User/UserController.java:396-399 | one step: the candidate becomes the best match exactly when its gated score is strictly greater than every earlier one |
| Matching.BestMatchIsFirstMaximum | backend/code/src/main/java/com/yjohnson/backend/entities/User/UserController.java:353-401 | the match, if any, is a pool member other than the requester that passes the gate, scores the maximum and is the first to do so; there is none exactly when every gated score is 0 |
| Matching.GatedCandidateScores | backend/code/src/main/java/com/yjohnson/backend/entities/User/UserController.java:360-393 | a candidate the gate admits scores at least 1 |
| Matching.NoMatchIffNoneAdmitted | backend/code/src/main/java/com/yjohnson/backend/entities/User/UserController.java:358-401 | there is no match exactly when no candidate other than the requester passes the gate (an empty pool, or an axis other than the three) |
| Matching.MaxIsUpperBound | backend/code/src/main/java/com/yjohnson/backend/entities/User/UserController.java:396-399 | every gated score is at most the maximum |
| Matching.MaxIsReached | backend/code/src/main/java/com/yjohnson/backend/entities/User/UserController.java:396-399 | a positive maximum is reached inside the pool |
| Matching.ExampleScores | backend/code/src/main/java/com/yjohnson/backend/entities/User/UserController.java:417-449 | in the three-user example both B and C score 2 against A |
| Matching.ExampleGatedScores | backend/code/src/main/java/com/yjohnson/backend/entities/User/UserController.java:358-393 | the requester's own gated score is 0; B and C pass the major gate with 2 |
| Matching.ExampleBFirst | backend/code/src/main/java/com/yjohnson/backend/entities/User/UserController.java:396-399 | with B enumerated before C, B is the match |
| Matching.ExampleCFirst | backend/code/src/main/java/com/yjohnson/backend/entities/User/UserController.java:396-399 | with C enumerated before B, C is the match: ties go to scan order |
| UserController.AddRelation | backend/code/src/main/java/com/yjohnson/backend/entities/User/UserController.java:205-226 | `addRelation` answers and leaves the store as `AddRelationResult` says, and keeps it consistent |
| UserController.AddRelationOutcome | backend/code/src/main/java/com/yjohnson/backend/entities/User/UserController.java:208-215 | BAD_REQUEST iff an id is missing, NOT_FOUND iff user or group is missing, CONFLICT iff the pair has a record, CREATED otherwise; every answer but CREATED has an empty body and leaves the store unchanged |
| UserController.AddRelationCreates | backend/code/src/main/java/com/yjohnson/backend/entities/User/UserController.java:217-225 | CREATED answers a new record under a fresh id that is in the table, the user's groups and the group's members, is the pair's only record, and nothing else changes |
| UserController.AddRelationTwiceConflicts | backend/code/src/main/java/com/yjohnson/backend/entities/User/UserController.java:214-215 | adding the same pair again answers CONFLICT and changes nothing |
| UserController.DeleteRelation | backend/code/src/main/java/com/yjohnson/backend/entities/User/UserController.java:236-257 | `deleteRelation` answers and leaves the store as `DeleteRelationResult` says |
| UserController.DeleteRelationOutcome | backend/code/src/main/java/com/yjohnson/backend/entities/User/UserController.java:239-246 | BAD_REQUEST iff an id or an endpoint is missing, NOT_FOUND iff the pair has no record; both leave the store unchanged |
| UserController.DeleteRelationRemoves | backend/code/src/main/java/com/yjohnson/backend/entities/User/UserController.java:248-256 | OK answers the pair's record, which leaves the table and both sets; the pair then has no record |
| UserController.DeleteRelationTwiceNotFound | backend/code/src/main/java/com/yjohnson/backend/entities/User/UserController.java:245-246 | deleting again answers NOT_FOUND |
| UserController.AddThenDeleteRelation | backend/code/src/main/java/com/yjohnson/backend/entities/User/UserController.java:217-256 | add then delete answers the added record and restores every table, with one id used up |
| UserController.AddInterestRelation | backend/code/src/main/java/com/yjohnson/backend/entities/User/UserController.java:285-306 | the same as `AddRelation`, for interests |
| UserController.AddInterestRelationOutcome | backend/code/src/main/java/com/yjohnson/backend/entities/User/UserController.java:288-295 | the same as `AddRelationOutcome`, for interests |
| UserController.AddInterestRelationCreates | backend/code/src/main/java/com/yjohnson/backend/entities/User/UserController.java:297-305 | the same as `AddRelationCreates`, for interests |
| UserController.AddInterestRelationTwiceConflicts | backend/code/src/main/java/com/yjohnson/backend/entities/User/UserController.java:294-295 | the same as `AddRelationTwiceConflicts`, for interests |
| UserController.DeleteInterestRelation | backend/code/src/main/java/com/yjohnson/backend/entities/User/UserController.java:316-337 | the same as `DeleteRelation`, for interests |
| UserController.DeleteInterestRelationOutcome | backend/code/src/main/java/com/yjohnson/backend/entities/User/UserController.java:319-326 | the same as `DeleteRelationOutcome`, for interests |
| UserController.DeleteInterestRelationRemoves | backend/code/src/main/java/com/yjohnson/backend/entities/User/UserController.java:328-336 | the same as `DeleteRelationRemoves`, for interests |
| UserController.DeleteInterestRelationTwiceNotFound | backend/code/src/main/java/com/yjohnson/backend/entities/User/UserController.java:325-326 | the same as `DeleteRelationTwiceNotFound`, for interests |
| UserController.AddThenDeleteInterestRelation | backend/code/src/main/java/com/yjohnson/backend/entities/User/UserController.java:297-336 | the same as `AddThenDeleteRelation`, for interests |
| UserController.AddUser | backend/code/src/main/java/com/yjohnson/backend/entities/User/UserController.java:56-72 | `addUser` answers and leaves the store as `AddUserResult` says |
| UserController.AddUserOutcome | backend/code/src/main/java/com/yjohnson/backend/entities/User/UserController.java:58-71 | a failing sanitisation answers INTERNAL_SERVER_ERROR; a taken email answers CONFLICT with the email before a taken username answers CONFLICT with the username; CREATED iff neither is taken; only CREATED changes the store |
| UserController.AddUserCreates | backend/code/src/main/java/com/yjohnson/backend/entities/User/UserController.java:70 | CREATED stores the sanitised user under a fresh id, without relations, enumerated last, and it is what its email and its username look up |
| UserController.AddUserTwiceConflicts | backend/code/src/main/java/com/yjohnson/backend/entities/User/UserController.java:65-66 | posting the same body again answers CONFLICT with the email |
| UserController.LookupUnique | backend/code/src/main/java/com/yjohnson/backend/entities/User/UserController.java:65-68 | in a consistent store a user is the one its email and its username look up |
| GroupController.Normalised | backend/code/src/main/java/com/yjohnson/backend/entities/Group/GroupController.java:34-35 | the name and a present description are capitalised then trimmed, and come out with no whitespace at either end; an absent description stays absent |
| GroupController.AddGroup | backend/code/src/main/java/com/yjohnson/backend/entities/Group/GroupController.java:31-41 | `addGroup` answers and leaves the store as `AddGroupResult` says |
| GroupController.AddGroupOutcome | backend/code/src/main/java/com/yjohnson/backend/entities/Group/GroupController.java:33-40 | BAD_REQUEST iff the name is missing or empty, CONFLICT with the name as capitalised then trimmed iff a group has it, CREATED otherwise; only CREATED changes the store |
| GroupController.AddGroupCreates | backend/code/src/main/java/com/yjohnson/backend/entities/Group/GroupController.java:36-39 | CREATED stores the group, name and description capitalised then trimmed, under a fresh id with no members; its id and its name then look it up, its name has no whitespace at either end, and nothing else changes |
| GroupController.AddGroupTwiceConflicts | backend/code/src/main/java/com/yjohnson/backend/entities/Group/GroupController.java:36-37 | posting the same body again answers CONFLICT with the name |
| GroupController.BlankNameStoredEmpty | backend/code/src/main/java/com/yjohnson/backend/entities/Group/GroupController.java:33-34 | a non-empty name of whitespace only passes the emptiness check and is stored as the empty name |
| GroupController.GetGroupById | backend/code/src/main/java/com/yjohnson/backend/entities/Group/GroupController.java:53-60 | `getGroupById` answers as `GetGroupByIdResult` says |
| GroupController.GetGroupByIdOutcome | backend/code/src/main/java/com/yjohnson/backend/entities/Group/GroupController.java:56-59 | BAD_REQUEST iff the id is missing, OK with the stored group iff it is stored, NOT_FOUND otherwise |
| GroupController.GetGroupByName | backend/code/src/main/java/com/yjohnson/backend/entities/Group/GroupController.java:69-76 | `getGroupByName` answers as `GetGroupByNameResult` says |
| GroupController.GetGroupByNameOutcome | backend/code/src/main/java/com/yjohnson/backend/entities/Group/GroupController.java:72-75 | BAD_REQUEST iff the name is missing, OK iff a group has the name, and then with that stored group |
| GroupController.NameLookupUnique | backend/code/src/main/java/com/yjohnson/backend/entities/Group/GroupController.java:72 | in a consistent store a group is what its name looks up |
| GroupController.DeleteGroup | backend/code/src/main/java/com/yjohnson/backend/entities/Group/GroupController.java:85-102 | `deleteGroup` answers the clone and leaves the store as `DeleteGroupResult` says |
| GroupController.DeleteGroupOutcome | backend/code/src/main/java/com/yjohnson/backend/entities/Group/GroupController.java:87-101 | BAD_REQUEST iff the id is missing, NOT_FOUND iff it is not stored, OK with the group as stored otherwise; only OK changes the store |
| GroupController.DeleteGroupRemoves | backend/code/src/main/java/com/yjohnson/backend/entities/Group/GroupController.java:89-93 | OK removes exactly that group and its member records, keeps the store consistent, and afterwards its id and its name look up nothing and a second delete answers NOT_FOUND |
| GroupController.UpdateGroup | backend/code/src/main/java/com/yjohnson/backend/entities/Group/GroupController.java:113-127 | `updateGroup` answers and leaves the store as `UpdateGroupResult` says |
| GroupController.UpdateGroupOutcome | backend/code/src/main/java/com/yjohnson/backend/entities/Group/GroupController.java:116-126 | BAD_REQUEST iff body or id is missing, NOT_FOUND iff the id is not stored, CONFLICT iff another group has the merged name, OK with the merged group otherwise; only OK changes the store |
| GroupController.UpdateGroupUpdates | backend/code/src/main/java/com/yjohnson/backend/entities/Group/GroupController.java:117-121 | OK replaces the name and description the body holds, keeps the other fields, the id, type and members, touches no other group, and keeps the store consistent |
| GroupController.UpdateGroupIdempotent | backend/code/src/main/java/com/yjohnson/backend/entities/Group/GroupController.java:117-121 | the same update sent twice answers the same and changes nothing the second time |
| GeneralController.LoginDecision | backend/code/src/main/java/com/yjohnson/backend/entities/GeneralController.java:37-51 | OK only with a user found by email or username whose hash equals the attempt's; BAD_REQUEST echoes the attempt; every other answer has an empty body |
| GeneralController.StageLogin | backend/code/src/main/java/com/yjohnson/backend/entities/GeneralController.java:37-51 | `stageLogin` answers as `LoginDecision` on the two lookups, the username looked up only when the email did not succeed |
| GeneralController.LoginOutcome | backend/code/src/main/java/com/yjohnson/backend/entities/GeneralController.java:39-48 | each answer in exactly its case: OK on an email hit or else a username hit with equal hash (two nulls are equal); INTERNAL_SERVER_ERROR for a null stored hash; BAD_REQUEST only for an empty stored hash that differs; NOT_FOUND otherwise |
| GeneralController.LoginWithOwnCredentials | backend/code/src/main/java/com/yjohnson/backend/entities/GeneralController.java:39-41 | a stored user logging in with their own email and hash gets their own row |
| GeneralController.LoginNeedsMatchingHash | backend/code/src/main/java/com/yjohnson/backend/entities/GeneralController.java:40-48 | with a hash no user of that email or username has, the answer is never OK |
| GeneralController.StageRegistration | backend/code/src/main/java/com/yjohnson/backend/entities/GeneralController.java:63-96 | `stageRegistration` answers and leaves the store as `RegisterResult` says |
| GeneralController.RegisterOutcome | backend/code/src/main/java/com/yjohnson/backend/entities/GeneralController.java:66-92 | BAD_REQUEST iff the body is missing or fails `validate`; then a taken email answers CONFLICT with the email before a taken username does with the username; CREATED iff neither is taken; only CREATED changes the store |
| GeneralController.RegisterThenLogin | backend/code/src/main/java/com/yjohnson/backend/entities/GeneralController.java:84-89 | after a CREATED registration, logging in with the registered email and hash answers OK with the saved user |
| Strings.SkipLeading | backend/code/src/main/java/com/yjohnson/backend/entities/Group/GroupController.java:34-35 | the index of the first non-whitespace character; everything before it is whitespace |
| Strings.SkipTrailing | backend/code/src/main/java/com/yjohnson/backend/entities/Group/GroupController.java:34-35 | the end once trailing whitespace is dropped; everything after it is whitespace |
| Strings.TrimEnds | backend/code/src/main/java/com/yjohnson/backend/entities/Group/GroupController.java:34-35 | `trimWhitespace` yields a slice with whitespace on neither end, and only whitespace was cut off |
| Strings.TrimIdempotent | backend/code/src/main/java/com/yjohnson/backend/entities/Group/GroupController.java:34-35 | trimming twice is trimming once |
| Strings.AsWrittenTrimmed | backend/code/src/main/java/com/yjohnson/backend/entities/Group/GroupController.java:34-35 | what `addGroup` stores has no whitespace at either end |
| Strings.AllWhitespaceNormalisesEmpty | backend/code/src/main/java/com/yjohnson/backend/entities/Group/GroupController.java:33-35 | a string of whitespace only comes out empty, in either order |
| Strings.NormaliseCapitalises | backend/code/src/main/java/com/yjohnson/backend/entities/Group/GroupController.java:21-23 | trimming first and capitalising after leaves no whitespace at either end and never a lower-case ASCII letter in front |
| Strings.NormaliseIdempotent | backend/code/src/main/java/com/yjohnson/backend/entities/Group/GroupController.java:34-35 | the corrected order (trim, then capitalise) applied twice is applied once |
| Strings.AgreeWithoutLeadingWhitespace | backend/code/src/main/java/com/yjohnson/backend/entities/Group/GroupController.java:34-35 | the code as written and the corrected normalisation agree when the name does not start with whitespace |
| Strings.LeadingWhitespaceDefeatsCapitalize | backend/code/src/main/java/com/yjohnson/backend/entities/Group/GroupController.java:34-35 | as written, a blank followed by a lower-case name comes out trimmed but not capitalised |
| Strings.LeadingWhitespaceExample | backend/code/src/main/java/com/yjohnson/backend/entities/Group/GroupController.java:34-35 | " chess" comes out as "chess" as written and as "Chess" corrected |
| Strings.NoTitleCase | backend/code/src/main/java/com/yjohnson/backend/entities/Group/GroupController.java:21-23 | "marTHa" comes out as "MarTHa" in either order: the rest of the name is not lower-cased |

## Left out

- `User.validate`, and the field sanitisation of `addUser` and `stageRegistration` (lower-casing, `trimAllWhitespace`, the phone-number formatting): `User.java` is not part of this model. Both are parameters (`validate`, and `sanitise`, which returns None where the source would throw).
- `Character.toUpperCase` is modelled on ASCII letters only; other characters are left as they are.
- GroupEntities.GroupEntity.HashCode: `String.hashCode` is folded over the characters of a Dafny string, which are Unicode scalar values. Java folds UTF-16 code units, so a name or description with a character above U+FFFF (a surrogate pair in Java) hashes differently. That `equals` objects have equal hash codes (`GroupEntities.EqualsImpliesEqualHash`) holds either way.
- `GroupController.AddGroup`: an `id` or `members` in the request body is not modelled; the saved group always takes the next id and no members.
- `GroupController.DeleteGroup`: the INTERNAL_SERVER_ERROR branch for `CloneNotSupportedException` is not modelled. `GroupEntity` implements `Cloneable`, so `clone` cannot throw it.
- `GroupController.DeleteGroup`: the cascade assumes that the user side of a User-Group record holds no foreign key that would block its deletion. The user entity's mapping is not part of this model.
- `GeneralController.StageRegistration`: the CONFLICT answer for a `DataIntegrityViolationException` raised while saving is not modelled. The lookups before the save already exclude every unique-column clash the model knows.
- `Matching.Match` requires only the user-table invariant. Its requester test `Bob.getId() != current.get().getId()` (UserController.java:358) is modelled as id inequality. If `getId` returns a boxed `Long`, that test compares references, and beyond the small-value cache it could fail to skip the requester. `User.java` is not part of this model.
- `Scoring.Add` counts with unbounded integers. Java's `int` counter could overflow only with more than 2^31 shared pairs.
- `User.getMajors` and `User.getColleges` are lists of group ids stored on each user; their bodies are not part of this model.
- The timestamp `LocalDateTime.now()` is a parameter. Concurrency is not modelled: the check-then-write race between two adds, and transactions.
- Handlers outside the modelled core are not modelled: `getUser`, `getAllUsers`, `deleteUser`, `updateUser`, the group listings, `retrieveAll`.
- The object layer of the user controller is not modelled: entities loaded twice as separate objects, and Jackson serialisation (`@JsonIgnore` on members). Users and relation records are values in the store.

## Findings

| source | as written | input that shows it | evidently intended | confidence | as-written member | corrected member |
|---|---|---|---|---|---|---|
| backend/code/src/main/java/com/yjohnson/backend/entities/Group/GroupController.java:34-35 | `trimWhitespace(capitalize(name))`: capitalises the first character and then trims it away if it was whitespace | the name " chess" is stored as "chess" | names are stored trimmed with the first character upper-case: "Chess". The comment at lines 22-23 also promises title case ("marTHa" -> "Martha"); neither order lower-cases the rest (`Strings.NoTitleCase`), so that example holds for neither | not executed | Strings.LeadingWhitespaceDefeatsCapitalize | Strings.NormaliseCapitalises |
