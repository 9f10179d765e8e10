/** Who belongs to a project: the member list of the aggregate, and the join table that stores it. */
module Projects {
  import opened Outcomes
  import opened Uuids

  // ---- the list

  /** Every occurrence of the user goes, the others keep their order. */
  function Dropped(users: seq<Uuid>, userID: Uuid): seq<Uuid> {
    if users == [] then []
    else
      var front, last := Dropped(users[..|users| - 1], userID), users[|users| - 1];
      if last == userID then front else front + [last]
  }

  lemma {:induction false} DroppedMembers(users: seq<Uuid>, userID: Uuid)
    ensures forall u :: u in Dropped(users, userID) <==> u in users && u != userID
    ensures Distinct(users) ==> Distinct(Dropped(users, userID))
  {
    if users != [] {
      var front, last := users[..|users| - 1], users[|users| - 1];
      DroppedMembers(front, userID);
      assert forall u :: u in users <==> u in front || u == last;
      if Distinct(users) {
        assert Distinct(front);
        assert last !in Dropped(front, userID) by {
          LastIsNew(users);
        }
      }
    }
  }

  /** Dropping works piece by piece, so those who stay keep their order. */
  lemma {:induction false} DroppedSplits(users: seq<Uuid>, more: seq<Uuid>, userID: Uuid)
    ensures Dropped(users + more, userID) == Dropped(users, userID) + Dropped(more, userID)
  {
    if more == [] {
      assert users + more == users;
    } else {
      assert (users + more)[..|users + more| - 1] == users + more[..|more| - 1];
      DroppedSplits(users, more[..|more| - 1], userID);
    }
  }

  ghost predicate Distinct(users: seq<Uuid>) {
    forall i, j :: 0 <= i < j < |users| ==> users[i] != users[j]
  }

  lemma LastIsNew(users: seq<Uuid>)
    requires users != [] && Distinct(users)
    ensures users[|users| - 1] !in users[..|users| - 1]
  {
  }

  function Added(users: seq<Uuid>, userID: Uuid): Result<seq<Uuid>> {
    if userID == NIL then Err(EmptyUserId)
    else if userID in users then Ok(users)
    else Ok(users + [userID])
  }

  function Removed(users: seq<Uuid>, userID: Uuid): Result<seq<Uuid>> {
    if userID == NIL then Err(EmptyUserId)
    else if userID !in users then Err(UserNotInProject)
    else if |users| <= 1 then Err(NoUsers)
    else Ok(Dropped(users, userID))
  }

  /** What a project started from one user keeps. */
  ghost predicate GoodMembers(users: seq<Uuid>) {
    users != [] && NIL !in users && Distinct(users)
  }

  lemma AddKeepsGood(users: seq<Uuid>, userID: Uuid)
    requires GoodMembers(users) && Added(users, userID).Ok?
    ensures GoodMembers(Added(users, userID).value) && userID in Added(users, userID).value
  {
  }

  lemma RemoveKeepsGood(users: seq<Uuid>, userID: Uuid)
    requires GoodMembers(users) && Removed(users, userID).Ok?
    ensures GoodMembers(Removed(users, userID).value) && userID !in Removed(users, userID).value
  {
    DroppedMembers(users, userID);
    var other := if users[0] == userID then users[1] else users[0];
    assert other in users && other != userID;
  }

  /** For any list NewProject accepts, duplicates included: removing the user leaves nobody exactly if the list repeats
      that user and names no one else, since the guard counts entries and not users. No caller builds such a list: a
      project starts with one user, AddUser adds no duplicate, and the join table holds none. */
  lemma RemoveEmptiesIff(users: seq<Uuid>, userID: Uuid)
    requires Removed(users, userID).Ok?
    ensures Removed(users, userID).value == [] <==> forall u :: u in users ==> u == userID
  {
    DroppedMembers(users, userID);
    if Removed(users, userID).value != [] {
      var other := Removed(users, userID).value[0];
      assert other in users && other != userID;
    }
  }

  datatype Change = Add(userID: Uuid) | Remove(userID: Uuid)

  function Changed(users: seq<Uuid>, c: Change): Result<seq<Uuid>> {
    match c
    case Add(u) => Added(users, u)
    case Remove(u) => Removed(users, u)
  }

  /** A refused change leaves the list as it is. */
  function Run(users: seq<Uuid>, changes: seq<Change>): seq<Uuid> {
    if changes == [] then users
    else
      var before := Run(users, changes[..|changes| - 1]);
      var after := Changed(before, changes[|changes| - 1]);
      if after.Ok? then after.value else before
  }

  /** Who belongs after one change. An addition is refused exactly for nil, a removal exactly for nil, for a stranger
      and for the only entry; a refused change leaves everybody in. */
  lemma ChangedMembers(users: seq<Uuid>, c: Change)
    ensures Changed(users, c).Ok?
            <==> c.userID != NIL && (c.Remove? ==> c.userID in users && |users| > 1)
    ensures Changed(users, c).Ok? ==>
              SetOf(Changed(users, c).value)
              == if c.Add? then SetOf(users) + {c.userID} else SetOf(users) - {c.userID}
    ensures c.Add? && c.userID != NIL ==> users <= Changed(users, c).value
  {
    DroppedMembers(users, c.userID);
  }

  /** The k-th change is about the user, and accepted when its turn comes. */
  predicate Decides(users: seq<Uuid>, changes: seq<Change>, u: Uuid, k: nat)
    requires k < |changes|
  {
    changes[k].userID == u && Changed(Run(users, changes[..k]), changes[k]).Ok?
  }

  /** The k-th change is the last accepted one about the user. */
  predicate DecidesLast(users: seq<Uuid>, changes: seq<Change>, u: Uuid, k: nat)
    requires k < |changes|
  {
    Decides(users, changes, u, k) && forall j :: k < j < |changes| ==> !Decides(users, changes, u, j)
  }

  /** No accepted change is about the user. */
  predicate Undecided(users: seq<Uuid>, changes: seq<Change>, u: Uuid) {
    forall j: nat :: j < |changes| ==> !Decides(users, changes, u, j)
  }

  predicate AddedLast(users: seq<Uuid>, changes: seq<Change>, u: Uuid) {
    exists k: nat :: k < |changes| && DecidesLast(users, changes, u, k) && changes[k].Add?
  }

  lemma DecidesInFront(users: seq<Uuid>, changes: seq<Change>, u: Uuid, k: nat)
    requires k < |changes| - 1
    ensures Decides(users, changes, u, k) == Decides(users, changes[..|changes| - 1], u, k)
  {
    assert changes[..|changes| - 1][..k] == changes[..k];
  }

  lemma DecidesLastInFront(users: seq<Uuid>, changes: seq<Change>, u: Uuid, k: nat)
    requires k < |changes| - 1
    ensures DecidesLast(users, changes, u, k)
            <==> DecidesLast(users, changes[..|changes| - 1], u, k) && !Decides(users, changes, u, |changes| - 1)
  {
    var n, front := |changes| - 1, changes[..|changes| - 1];
    DecidesInFront(users, changes, u, k);
    forall j: nat | j < n
      ensures Decides(users, changes, u, j) == Decides(users, front, u, j)
    {
      DecidesInFront(users, changes, u, j);
    }
    assert n == |front|;
    if DecidesLast(users, front, u, k) && !Decides(users, changes, u, n) {
      forall j | k < j < |changes|
        ensures !Decides(users, changes, u, j)
      {
        if j < n {
          assert !Decides(users, front, u, j);
        }
      }
    }
  }

  lemma UndecidedStep(users: seq<Uuid>, changes: seq<Change>, u: Uuid)
    requires changes != []
    ensures Undecided(users, changes, u)
            <==> Undecided(users, changes[..|changes| - 1], u) && !Decides(users, changes, u, |changes| - 1)
  {
    var n, front := |changes| - 1, changes[..|changes| - 1];
    forall j: nat | j < n
      ensures Decides(users, changes, u, j) == Decides(users, front, u, j)
    {
      DecidesInFront(users, changes, u, j);
    }
    if Undecided(users, front, u) && !Decides(users, changes, u, n) {
      forall j: nat | j < |changes|
        ensures !Decides(users, changes, u, j)
      {
        if j < n {
          assert !Decides(users, front, u, j);
        }
      }
    }
    if Undecided(users, changes, u) {
      forall j: nat | j < |front|
        ensures !Decides(users, front, u, j)
      {
        assert !Decides(users, changes, u, j);
      }
    }
  }

  lemma AddedLastStep(users: seq<Uuid>, changes: seq<Change>, u: Uuid)
    requires changes != []
    ensures var n := |changes| - 1;
            AddedLast(users, changes, u)
            <==> if Decides(users, changes, u, n) then changes[n].Add? else AddedLast(users, changes[..n], u)
  {
    var n := |changes| - 1;
    forall k: nat | k < n
      ensures DecidesLast(users, changes, u, k)
              <==> DecidesLast(users, changes[..n], u, k) && !Decides(users, changes, u, n)
    {
      DecidesLastInFront(users, changes, u, k);
    }
    assert DecidesLast(users, changes, u, n) <==> Decides(users, changes, u, n);
    if !Decides(users, changes, u, n) && AddedLast(users, changes[..n], u) {
      var k: nat :| k < n && DecidesLast(users, changes[..n], u, k) && changes[..n][k].Add?;
      assert DecidesLast(users, changes, u, k);
    }
  }

  /** Over every run: a user belongs at the end exactly if the last accepted change about the user was an addition, or
      no accepted change was about the user, who belonged at the start. */
  lemma {:induction false} BelongsIff(users: seq<Uuid>, changes: seq<Change>, u: Uuid)
    ensures u in Run(users, changes) <==> AddedLast(users, changes, u) || (Undecided(users, changes, u) && u in users)
  {
    if changes != [] {
      var front := changes[..|changes| - 1];
      BelongsIff(users, front, u);
      AddedLastStep(users, changes, u);
      UndecidedStep(users, changes, u);
      ChangedMembers(Run(users, front), changes[|changes| - 1]);
      assert u in Run(users, changes) <==> u in SetOf(Run(users, changes));
    }
  }

  /** From one user other than nil, every run of additions and removals keeps the list non-empty, nil-free and
      duplicate-free. */
  lemma {:induction false} RunKeepsGood(users: seq<Uuid>, changes: seq<Change>)
    requires GoodMembers(users)
    ensures GoodMembers(Run(users, changes))
  {
    if changes != [] {
      var front, last := changes[..|changes| - 1], changes[|changes| - 1];
      RunKeepsGood(users, front);
      var before := Run(users, front);
      if Changed(before, last).Ok? {
        match last
        case Add(u) => AddKeepsGood(before, u);
        case Remove(u) => RemoveKeepsGood(before, u);
      }
    }
  }

  class Project {
    const id: Uuid
    const name: string
    var userIDs: seq<Uuid>

    constructor (id: Uuid, userIDs: seq<Uuid>, name: string)
      ensures this.id == id && this.userIDs == userIDs && this.name == name
    {
      this.id, this.userIDs, this.name := id, userIDs, name;
    }

    predicate HasUser(userID: Uuid)
      reads this
    {
      userID in userIDs
    }

    method AddUser(userID: Uuid) returns (r: Result<()>)
      modifies this
      ensures r == if userID == NIL then Err(EmptyUserId) else Ok(())
      ensures SetOf(userIDs) == if r.Ok? then SetOf(old(userIDs)) + {userID} else SetOf(old(userIDs))
      ensures old(userIDs) <= userIDs && |userIDs| <= |old(userIDs)| + 1
      ensures r.Ok? ==> userIDs == Added(old(userIDs), userID).value
      ensures GoodMembers(old(userIDs)) ==> GoodMembers(userIDs)
    {
      if userID == NIL {
        return Err(EmptyUserId);
      }
      if HasUser(userID) {
        return Ok(());
      }
      userIDs := userIDs + [userID];
      r := Ok(());
    }

    method RemoveUser(userID: Uuid) returns (r: Result<()>)
      modifies this
      ensures r == if userID == NIL then Err(EmptyUserId)
                   else if userID !in old(userIDs) then Err(UserNotInProject)
                   else if |old(userIDs)| <= 1 then Err(NoUsers)
                   else Ok(())
      ensures SetOf(userIDs) == if r.Ok? then SetOf(old(userIDs)) - {userID} else SetOf(old(userIDs))
      ensures userIDs == if r.Ok? then Dropped(old(userIDs), userID) else old(userIDs)
      ensures GoodMembers(old(userIDs)) ==> GoodMembers(userIDs)
    {
      if userID == NIL {
        return Err(EmptyUserId);
      }
      if !HasUser(userID) {
        return Err(UserNotInProject);
      }
      if |userIDs| <= 1 {
        return Err(NoUsers);
      }
      DroppedMembers(userIDs, userID);
      if GoodMembers(userIDs) {
        RemoveKeepsGood(userIDs, userID);
      }
      userIDs := Dropped(userIDs, userID);
      r := Ok(());
    }
  }

  method NewProject(id: Uuid, userIDs: seq<Uuid>, name: string, hasTime: bool) returns (r: Result<Project>)
    ensures r.Ok? <==> id != NIL && userIDs != [] && NIL !in userIDs && name != "" && hasTime
    ensures r.Ok? ==> fresh(r.value) && r.value.id == id && r.value.userIDs == userIDs && r.value.name == name
    ensures r.Ok? && |userIDs| == 1 ==> GoodMembers(r.value.userIDs)
  {
    if id == NIL {
      return Err(EmptyId);
    }
    if userIDs == [] {
      return Err(NoUsers);
    }
    if NIL in userIDs {
      return Err(EmptyUserId);
    }
    if name == "" {
      return Err(EmptyName);
    }
    if !hasTime {
      return Err(EmptyUpdatedAt);
    }
    var p := new Project(id, userIDs, name);
    r := Ok(p);
  }

  // ---- the join table

  /** Rows (project, user). */
  type Relation = set<(Uuid, Uuid)>

  function MembersOf(rel: Relation, projectID: Uuid): set<Uuid> {
    set row | row in rel && row.0 == projectID :: row.1
  }

  function Elsewhere(rel: Relation, projectID: Uuid): Relation {
    set row | row in rel && row.0 != projectID
  }

  /** The table holds exactly these users for the project, and what it held for the others. */
  ghost predicate Stores(rel: Relation, before: Relation, projectID: Uuid, users: seq<Uuid>) {
    && (forall u :: u in MembersOf(rel, projectID) <==> u in users)
    && Elsewhere(rel, projectID) == Elsewhere(before, projectID)
  }

  /** The rows of these users. */
  function Rows(projectID: Uuid, users: seq<Uuid>): Relation {
    set u | u in users :: (projectID, u)
  }

  /** What is left of the table when every user of the project who is not listed goes. */
  function Kept(rel: Relation, projectID: Uuid, users: seq<Uuid>): Relation {
    set row | row in rel && (row.0 == projectID ==> row.1 in users)
  }

  /** The users inserted before the database refuses one. */
  function Inserted(users: seq<Uuid>, refused: set<Uuid>): (done: seq<Uuid>)
    ensures done <= users && forall u :: u in done ==> u !in refused
    ensures |done| < |users| ==> users[|done|] in refused
  {
    if users == [] || users[0] in refused then [] else [users[0]] + Inserted(users[1..], refused)
  }

  lemma {:induction false} InsertedIs(users: seq<Uuid>, refused: set<Uuid>, i: nat)
    requires i <= |users| && forall u :: u in users[..i] ==> u !in refused
    requires i < |users| ==> users[i] in refused
    ensures Inserted(users, refused) == users[..i]
  {
    if i > 0 {
      assert users[..i][0] == users[0];
      assert users[1..][..i - 1] == users[..i][1..];
      InsertedIs(users[1..], refused, i - 1);
      assert users[..i] == [users[0]] + users[1..][..i - 1];
    }
  }

  class ProjectRepository {
    var names: map<Uuid, string>  // the projects table
    var members: Relation         // the join table

    constructor ()
      ensures names == map[] && members == {}
    {
      names, members := map[], {};
    }

    method RemoveOldMembers(projectID: Uuid, userIDs: seq<Uuid>)
      modifies this`members
      ensures members == Kept(old(members), projectID, userIDs)
      ensures forall p, u :: (p, u) in members <==> (p, u) in old(members) && (p == projectID ==> u in userIDs)
    {
      if |userIDs| == 0 {
        members := set row | row in members && row.0 != projectID;
        return;
      }
      members := set row | row in members && !(row.0 == projectID && !(row.1 in userIDs));
    }

    /** Stops at the first insertion the database refuses. */
    method InsertMembers(projectID: Uuid, userIDs: seq<Uuid>, refused: set<Uuid>) returns (r: Result<()>)
      modifies this`members
      ensures r.Ok? <==> forall u :: u in userIDs ==> u !in refused
      ensures members == old(members) + Rows(projectID, Inserted(userIDs, refused))
      ensures forall p, u ::
                (p, u) in members <==> (p, u) in old(members) || (p == projectID && u in Inserted(userIDs, refused))
    {
      for i := 0 to |userIDs|
        invariant members == old(members) + Rows(projectID, userIDs[..i])
        invariant forall u :: u in userIDs[..i] ==> u !in refused
      {
        assert userIDs[..i + 1] == userIDs[..i] + [userIDs[i]];
        if userIDs[i] in refused {
          InsertedIs(userIDs, refused, i);
          return Err(StoreFailure);
        }
        members := members + {(projectID, userIDs[i])};
      }
      assert userIDs[..|userIDs|] == userIDs;
      InsertedIs(userIDs, refused, |userIDs|);
      r := Ok(());
    }

    /** When all goes well the table holds exactly the listed users for the project and is unchanged elsewhere. */
    method SyncMembers(projectID: Uuid, userIDs: seq<Uuid>, refused: set<Uuid>) returns (r: Result<()>)
      modifies this`members
      ensures r.Ok? <==> forall u :: u in userIDs ==> u !in refused
      ensures members == Kept(old(members), projectID, userIDs) + Rows(projectID, Inserted(userIDs, refused))
      ensures r.Ok? ==> Stores(members, old(members), projectID, userIDs)
    {
      RemoveOldMembers(projectID, userIDs);
      r := InsertMembers(projectID, userIDs, refused);
      if r.Ok? {
        InsertedIs(userIDs, refused, |userIDs|);
        assert userIDs[..|userIDs|] == userIDs;
        forall u
          ensures u in MembersOf(members, projectID) <==> u in userIDs
        {
          assert u in MembersOf(members, projectID) <==> (projectID, u) in members;
        }
      }
    }

    /** The whole save is one transaction: it stores the project and its list, or leaves both tables alone. */
    method Save(p: Project, upserted: bool, refused: set<Uuid>, committed: bool) returns (r: Result<()>)
      modifies this
      ensures r.Ok? <==> upserted && committed && forall u :: u in p.userIDs ==> u !in refused
      ensures names == if r.Ok? then old(names)[p.id := p.name] else old(names)
      ensures if r.Ok? then Stores(members, old(members), p.id, p.userIDs) else members == old(members)
    {
      if !upserted {
        return Err(StoreFailure);
      }
      var begun, beforeNames := members, names;
      names := names[p.id := p.name];
      r := SyncMembers(p.id, p.userIDs, refused);
      if r.Ok? && committed {
        return;
      }
      members, names := begun, beforeNames;
      r := Err(StoreFailure);
    }

    /** Whether NewProject would take what is stored. */
    predicate Loadable(id: Uuid)
      reads this
    {
      id != NIL && id in names && names[id] != "" && MembersOf(members, id) != {} && NIL !in MembersOf(members, id)
    }

    /** Reads the project and its users back, in whatever order the rows come. */
    method FindByID(id: Uuid, queried: bool) returns (r: Result<Project>)
      ensures r.Ok? <==> queried && Loadable(id)
      ensures queried && id !in names ==> r == Err(ProjectNotFound)
      ensures r.Ok? ==> fresh(r.value) && r.value.id == id && r.value.name == names[id]
      ensures r.Ok? ==> GoodMembers(r.value.userIDs) && SetOf(r.value.userIDs) == MembersOf(members, id)
    {
      if !queried {
        return Err(StoreFailure);
      }
      if id !in names {
        return Err(ProjectNotFound);
      }
      var userIDs: seq<Uuid> := [];
      var todo := MembersOf(members, id);
      while todo != {}
        invariant todo <= MembersOf(members, id)
        invariant forall u :: u in userIDs <==> u in MembersOf(members, id) && u !in todo
        invariant Distinct(userIDs)
      {
        var u :| u in todo;
        userIDs, todo := userIDs + [u], todo - {u};
      }
      if userIDs == [] {
        assert MembersOf(members, id) == {};
      } else {
        assert userIDs[0] in MembersOf(members, id);
      }
      r := NewProject(id, userIDs, names[id], true);
    }
  }

  /** What was saved reads back as the same users in some order, and a change then does to them what it would have
      done to the saved list. */
  lemma SavedListReadsBack(rel: Relation, before: Relation, projectID: Uuid, users: seq<Uuid>, c: Change,
                           loaded: seq<Uuid>)
    requires Stores(rel, before, projectID, users) && GoodMembers(users)
    requires Distinct(loaded) && forall u :: u in loaded <==> u in MembersOf(rel, projectID)
    ensures GoodMembers(loaded) && |loaded| == |users|
    ensures Changed(loaded, c).Ok? <==> Changed(users, c).Ok?
    ensures Changed(loaded, c).Ok? ==> GoodMembers(Changed(loaded, c).value)
    ensures Changed(loaded, c).Ok? ==> forall u :: u in Changed(loaded, c).value <==> u in Changed(users, c).value
  {
    assert users[0] in loaded;
    SameSizeAsSet(loaded);
    SameSizeAsSet(users);
    assert SetOf(loaded) == SetOf(users);
    if c.Remove? {
      DroppedMembers(loaded, c.userID);
      DroppedMembers(users, c.userID);
      if Changed(loaded, c).Ok? {
        RemoveKeepsGood(loaded, c.userID);
      }
    }
  }

  function SetOf(users: seq<Uuid>): set<Uuid> {
    set u | u in users
  }

  lemma {:induction false} SameSizeAsSet(users: seq<Uuid>)
    requires Distinct(users)
    ensures |users| == |SetOf(users)|
  {
    if users == [] {
      assert SetOf(users) == {};
    } else {
      var front, last := users[..|users| - 1], users[|users| - 1];
      SameSizeAsSet(front);
      LastIsNew(users);
      assert users == front + [last];
      assert SetOf(users) == SetOf(front) + {last};
    }
  }

  // ---- the table over whole runs

  /** One saved call: a project created with one user, or loaded in some row order, changed and saved; or nothing. */
  ghost predicate TableStep(before: Relation, after: Relation) {
    || after == before
    || (exists p, u :: u != NIL && Stores(after, before, p, [u]))
    || (exists p, c, loaded :: ChangeSaved(before, after, p, c, loaded))
  }

  ghost predicate ChangeSaved(before: Relation, after: Relation, projectID: Uuid, c: Change, loaded: seq<Uuid>) {
    && Distinct(loaded) && SetOf(loaded) == MembersOf(before, projectID)
    && Changed(loaded, c).Ok? && Stores(after, before, projectID, Changed(loaded, c).value)
  }

  /** A saved change adds or removes exactly one row of the whole table. */
  lemma SavedChangeIsOneRow(before: Relation, after: Relation, projectID: Uuid, c: Change, loaded: seq<Uuid>)
    requires ChangeSaved(before, after, projectID, c, loaded)
    ensures after == if c.Add? then before + {(projectID, c.userID)} else before - {(projectID, c.userID)}
  {
    var users := Changed(loaded, c).value;
    ChangedMembers(loaded, c);
    forall p, u
      ensures (p, u) in after
              <==> if p == projectID && u == c.userID then c.Add? else (p, u) in before
    {
      if p == projectID {
        assert u in MembersOf(after, projectID) <==> (projectID, u) in after;
        assert u in MembersOf(before, projectID) <==> (projectID, u) in before;
        assert u in users <==> u in SetOf(users);
      } else {
        assert (p, u) in Elsewhere(after, projectID) <==> (p, u) in Elsewhere(before, projectID);
      }
    }
  }

  /** Nil is nobody's member. */
  ghost predicate NilFree(rel: Relation) {
    forall row :: row in rel ==> row.1 != NIL
  }

  lemma StoredElsewhere(rel: Relation, before: Relation, projectID: Uuid, users: seq<Uuid>, other: Uuid)
    requires Stores(rel, before, projectID, users) && other != projectID
    ensures MembersOf(rel, other) == MembersOf(before, other)
  {
    forall u
      ensures (other, u) in rel <==> (other, u) in before
    {
      assert (other, u) in Elsewhere(rel, projectID) <==> (other, u) in Elsewhere(before, projectID);
    }
  }

  lemma StoredKeepsSome(rel: Relation, before: Relation, projectID: Uuid, users: seq<Uuid>, other: Uuid)
    requires NilFree(before) && Stores(rel, before, projectID, users) && users != [] && NIL !in users
    requires MembersOf(before, other) != {}
    ensures MembersOf(rel, other) != {}
  {
    if other == projectID {
      assert users[0] in MembersOf(rel, projectID);
    } else {
      StoredElsewhere(rel, before, projectID, users, other);
    }
  }

  lemma StoredIsNilFree(rel: Relation, before: Relation, projectID: Uuid, users: seq<Uuid>)
    requires NilFree(before) && Stores(rel, before, projectID, users) && NIL !in users
    ensures NilFree(rel)
  {
    forall row | row in rel
      ensures row.1 != NIL
    {
      if row.0 == projectID {
        assert row.1 in MembersOf(rel, projectID);
      } else {
        assert row in Elsewhere(rel, projectID);
      }
    }
  }

  lemma SavedIsGood(before: Relation, after: Relation, projectID: Uuid, c: Change, loaded: seq<Uuid>)
    requires NilFree(before) && ChangeSaved(before, after, projectID, c, loaded)
    ensures Changed(loaded, c).value != [] && NIL !in Changed(loaded, c).value
  {
    forall u | u in loaded
      ensures u != NIL
    {
      assert u in SetOf(loaded);
      assert (projectID, u) in before;
    }
    match c
    case Add(u) =>
    case Remove(u) => RemoveKeepsGood(loaded, u);
  }

  lemma TableStepKeeps(before: Relation, after: Relation, projectID: Uuid)
    requires NilFree(before) && TableStep(before, after)
    ensures NilFree(after) && (MembersOf(before, projectID) != {} ==> MembersOf(after, projectID) != {})
  {
    if after != before {
      if p, u :| u != NIL && Stores(after, before, p, [u]) {
        StoredIsNilFree(after, before, p, [u]);
        if MembersOf(before, projectID) != {} {
          StoredKeepsSome(after, before, p, [u], projectID);
        }
      } else {
        var p, c, loaded :| ChangeSaved(before, after, p, c, loaded);
        SavedIsGood(before, after, p, c, loaded);
        StoredIsNilFree(after, before, p, Changed(loaded, c).value);
        if MembersOf(before, projectID) != {} {
          StoredKeepsSome(after, before, p, Changed(loaded, c).value, projectID);
        }
      }
    }
  }

  /** In every run of creations and saved changes, over any number of projects and with rows read back in any order,
      no project that has members ever loses its last one, and nil never becomes one. */
  lemma {:induction false} TableRunKeeps(tables: seq<Relation>, projectID: Uuid)
    requires tables != [] && NilFree(tables[0])
    requires forall i :: 0 <= i < |tables| - 1 ==> TableStep(tables[i], tables[i + 1])
    ensures NilFree(tables[|tables| - 1])
    ensures MembersOf(tables[0], projectID) != {} ==> MembersOf(tables[|tables| - 1], projectID) != {}
  {
    if |tables| > 1 {
      TableRunKeeps(tables[..|tables| - 1], projectID);
      assert TableStep(tables[|tables| - 2], tables[|tables| - 2 + 1]);
      TableStepKeeps(tables[|tables| - 2], tables[|tables| - 1], projectID);
    }
  }
}
