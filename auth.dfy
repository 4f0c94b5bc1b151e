/** Users: the find-or-create lookup behind `getCurrentUser` and the upsert
    by Clerk id that the Clerk webhook calls (`syncUser`). */
module Auth {
  import opened Wrappers
  import opened Index
  import opened Schema

  /** What `ctx.auth.getUserIdentity()` reports about the signed-in user. */
  datatype Identity = Identity(subject: string, email: Option<string>, name: Option<string>, pictureUrl: Option<string>)

  /** The users the `by_clerk_id` index finds for `clerkId`. */
  function WithClerkId(users: map<Id, User>, clerkId: string): set<Id> {
    set k | k in users && users[k].clerkId == clerkId
  }

  /** `.unique()` on the `by_clerk_id` index: no user, or the only one. */
  function Lookup(users: map<Id, User>, clerkId: string): (r: Option<Id>)
    requires UniqueClerkIds(users)
    ensures r.None? <==> WithClerkId(users, clerkId) == {}
    ensures r.Some? ==> WithClerkId(users, clerkId) == {r.value}
  {
    if WithClerkId(users, clerkId) == {} then None
    else
      var k :| k in WithClerkId(users, clerkId);
      Some(k)
  }

  /** Storing `u` under `k` keeps Clerk ids unique when `k` already held
      that Clerk id or no user held it. */
  lemma PutKeepsUnique(users: map<Id, User>, k: Id, u: User)
    requires UniqueClerkIds(users)
    requires WithClerkId(users, u.clerkId) <= {k}
    ensures UniqueClerkIds(users[k := u])
  {
    var after := users[k := u];
    forall a | a in after && after[a].clerkId == u.clerkId
      ensures a == k
    {
      assert a == k || a in WithClerkId(users, u.clerkId);
    }
  }

  /** The record `getCurrentUser` inserts for an identity seen for the first time. */
  function NewUser(identity: Identity, now: int): User {
    User(identity.subject, identity.email.GetOr(""), identity.name, identity.pictureUrl, now)
  }

  /** `getCurrentUser`: nothing without an identity; otherwise the user with
      the identity's Clerk id, inserted first when there is none. */
  method GetCurrentUser(db: Database, identity: Option<Identity>, now: int) returns (r: Option<Doc<User>>)
    requires db.Valid()
    modifies db
    ensures db.Valid()
    ensures identity.None? ==> r == None && unchanged(db)
    ensures identity.Some? ==>
      && r.Some? && r.value.id in db.users && db.users[r.value.id] == r.value.value
      && WithClerkId(db.users, identity.value.subject) == {r.value.id}
    ensures identity.Some? && Lookup(old(db.users), identity.value.subject).Some? ==>
      r.value.id == Lookup(old(db.users), identity.value.subject).value && unchanged(db)
    ensures identity.Some? && Lookup(old(db.users), identity.value.subject).None? ==>
      && r == Some(Doc(old(db.nextId), NewUser(identity.value, now)))
      && db.users == old(db.users)[old(db.nextId) := NewUser(identity.value, now)]
      && db.nextId == old(db.nextId) + 1
      && db.projects == old(db.projects) && db.files == old(db.files)
      && db.conversations == old(db.conversations) && db.messages == old(db.messages)
  {
    if identity.None? {
      return None;
    }
    var found := Lookup(db.users, identity.value.subject);
    if found.Some? {
      return Some(Doc(found.value, db.users[found.value]));
    }
    var id := db.NewId();
    PutKeepsUnique(db.users, id, NewUser(identity.value, now));
    db.users := db.users[id := NewUser(identity.value, now)];
    assert WithClerkId(db.users, identity.value.subject) == {id};
    r := Some(Doc(id, db.users[id]));
  }

  /** The id `syncUser` returns: the existing user's, or the fresh one. */
  function SyncedId(users: map<Id, User>, freshId: Id, clerkId: string): Id
    requires UniqueClerkIds(users)
  {
    match Lookup(users, clerkId)
    case Some(k) => k
    case None => freshId
  }

  /** The user table after `syncUser`: the existing record has its email,
      name and image replaced (an absent optional clears the field), or a
      new record is inserted under `freshId`. */
  function Synced(users: map<Id, User>, freshId: Id, clerkId: string, email: string,
                  name: Option<string>, imageUrl: Option<string>, now: int): (r: map<Id, User>)
    requires UniqueClerkIds(users) && freshId !in users
    ensures UniqueClerkIds(r)
    ensures var id := SyncedId(users, freshId, clerkId);
      && r.Keys == users.Keys + {id}
      && WithClerkId(r, clerkId) == {id}
      && r[id].clerkId == clerkId && r[id].email == email && r[id].name == name && r[id].imageUrl == imageUrl
      && (forall k :: k in users && k != id ==> r[k] == users[k])
  {
    match Lookup(users, clerkId)
    case Some(k) =>
      var u := users[k].(email := email, name := name, imageUrl := imageUrl);
      PutKeepsUnique(users, k, u);
      users[k := u]
    case None =>
      var u := User(clerkId, email, name, imageUrl, now);
      PutKeepsUnique(users, freshId, u);
      users[freshId := u]
  }

  /** `syncUser`: upsert by Clerk id. */
  method SyncUser(db: Database, clerkId: string, email: string, name: Option<string>, imageUrl: Option<string>, now: int)
    returns (id: Id)
    requires db.Valid()
    modifies db
    ensures db.Valid()
    ensures id == SyncedId(old(db.users), old(db.nextId), clerkId)
    ensures db.users == Synced(old(db.users), old(db.nextId), clerkId, email, name, imageUrl, now)
    ensures db.nextId == if id in old(db.users) then old(db.nextId) else old(db.nextId) + 1
    ensures db.projects == old(db.projects) && db.files == old(db.files)
    ensures db.conversations == old(db.conversations) && db.messages == old(db.messages)
  {
    var existing := Lookup(db.users, clerkId);
    if existing.Some? {
      id := existing.value;
      PutKeepsUnique(db.users, id, db.users[id].(email := email, name := name, imageUrl := imageUrl));
      db.users := db.users[id := db.users[id].(email := email, name := name, imageUrl := imageUrl)];
      return;
    }
    id := db.NewId();
    PutKeepsUnique(db.users, id, User(clerkId, email, name, imageUrl, now));
    db.users := db.users[id := User(clerkId, email, name, imageUrl, now)];
  }

  /** An existing user keeps its id, its Clerk id and its creation time, and
      the table keeps its size. */
  lemma SyncExistingKeepsRecord(users: map<Id, User>, freshId: Id, clerkId: string, email: string,
                                name: Option<string>, imageUrl: Option<string>, now: int)
    requires UniqueClerkIds(users) && freshId !in users
    requires WithClerkId(users, clerkId) != {}
    ensures var id := SyncedId(users, freshId, clerkId);
      var r := Synced(users, freshId, clerkId, email, name, imageUrl, now);
      && id in users && users[id].clerkId == clerkId
      && r.Keys == users.Keys && |r| == |users|
      && r[id].createdAt == users[id].createdAt
  {
    var id := SyncedId(users, freshId, clerkId);
    var r := Synced(users, freshId, clerkId, email, name, imageUrl, now);
    assert id in WithClerkId(users, clerkId);
    assert r.Keys == users.Keys;
  }

  /** A Clerk id seen for the first time adds exactly one record, created now. */
  lemma SyncNewInsertsOne(users: map<Id, User>, freshId: Id, clerkId: string, email: string,
                          name: Option<string>, imageUrl: Option<string>, now: int)
    requires UniqueClerkIds(users) && freshId !in users
    requires WithClerkId(users, clerkId) == {}
    ensures var r := Synced(users, freshId, clerkId, email, name, imageUrl, now);
      && SyncedId(users, freshId, clerkId) == freshId
      && r == users[freshId := User(clerkId, email, name, imageUrl, now)]
      && |r| == |users| + 1
  {
  }

  /** Two syncs of the same Clerk id leave one record for it, under the id the
      first sync returned, holding the second sync's fields and the first
      sync's creation time. */
  lemma SyncTwice(users: map<Id, User>, freshId1: Id, freshId2: Id, clerkId: string,
                  email1: string, name1: Option<string>, imageUrl1: Option<string>, now1: int,
                  email2: string, name2: Option<string>, imageUrl2: Option<string>, now2: int)
    requires UniqueClerkIds(users) && freshId1 !in users
    requires freshId2 !in Synced(users, freshId1, clerkId, email1, name1, imageUrl1, now1)
    ensures var once := Synced(users, freshId1, clerkId, email1, name1, imageUrl1, now1);
      var twice := Synced(once, freshId2, clerkId, email2, name2, imageUrl2, now2);
      var id := SyncedId(users, freshId1, clerkId);
      && SyncedId(once, freshId2, clerkId) == id
      && WithClerkId(twice, clerkId) == {id}
      && twice[id] == once[id].(email := email2, name := name2, imageUrl := imageUrl2)
      && twice.Keys == once.Keys
  {
    var once := Synced(users, freshId1, clerkId, email1, name1, imageUrl1, now1);
    assert Lookup(once, clerkId) == Some(SyncedId(users, freshId1, clerkId));
  }
}
