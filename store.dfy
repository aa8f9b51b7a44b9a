/** The ownership-scoped fridge inventory and the get-or-create identity lookup.
    The database is a pair of in-memory tables updated in place: users keyed by the
    external (sign-in provider's) id, fridge items keyed by their own id. The
    sign-in provider's answer, "who is asking", is a parameter of every operation. */
module Store {
  import opened Wrappers

  datatype Category = Essential | Fresh

  /** What the sign-in provider reports about the caller: the external user id and
      the email claim of the session, when there is one. */
  datatype Principal = Principal(clerkId: string, email: Option<string>)

  datatype User = User(id: nat, clerkId: string, email: Option<string>)

  datatype FridgeItem = FridgeItem(
    id: nat,
    userId: nat,
    name: string,
    quantity: real,
    unit: string,
    category: Category,
    createdAt: int,
    updatedAt: int)

  datatype FridgeItemData = FridgeItemData(name: string, quantity: real, unit: string, category: Category)

  /** A partial update: None stands for a field the caller did not send. */
  datatype FridgeItemPatch = FridgeItemPatch(
    name: Option<string>,
    quantity: Option<real>,
    unit: Option<string>,
    category: Option<Category>)

  /** The projection of an item handed to meal-plan generation. */
  datatype ItemSummary = ItemSummary(id: nat, name: string, quantity: real, unit: string, category: Category)

  /** A user record together with its fridge items, newest first. */
  datatype UserWithItems = UserWithItems(user: User, fridgeItems: seq<FridgeItem>)

  const NotAuthenticated: string := "User not authenticated"
  const NotFoundOrDenied: string := "Fridge item not found or access denied"

  /** The external id of the caller. A missing principal and an empty id both count
      as nobody signed in, as the falsy test on the id does. */
  function SignedIn(auth: Option<Principal>): Option<string> {
    if auth.Some? && auth.value.clerkId != "" then Some(auth.value.clerkId) else None
  }

  /** The email stored for a new user: the claim, or null when it is missing or empty. */
  function StoredEmail(email: Option<string>): Option<string> {
    if email.Some? && email.value != "" then email else None
  }

  /** An update writes the fields the patch carries and the new modification time;
      the identity, the owner and the creation time stay. */
  function ApplyPatch(item: FridgeItem, patch: FridgeItemPatch, now: int): (r: FridgeItem)
    ensures r.id == item.id && r.userId == item.userId && r.createdAt == item.createdAt
    ensures r.updatedAt == now
    ensures r.name == (if patch.name.Some? then patch.name.value else item.name)
    ensures r.quantity == (if patch.quantity.Some? then patch.quantity.value else item.quantity)
    ensures r.unit == (if patch.unit.Some? then patch.unit.value else item.unit)
    ensures r.category == (if patch.category.Some? then patch.category.value else item.category)
  {
    item.(name := patch.name.GetOr(item.name),
          quantity := patch.quantity.GetOr(item.quantity),
          unit := patch.unit.GetOr(item.unit),
          category := patch.category.GetOr(item.category),
          updatedAt := now)
  }

  /** Patching twice with the same data at the same time is patching once. */
  lemma PatchIdempotent(item: FridgeItem, patch: FridgeItemPatch, now: int)
    ensures ApplyPatch(ApplyPatch(item, patch, now), patch, now) == ApplyPatch(item, patch, now)
  {
    var once := ApplyPatch(item, patch, now);
    var twice := ApplyPatch(once, patch, now);
    assert twice.name == once.name && twice.quantity == once.quantity;
    assert twice.unit == once.unit && twice.category == once.category;
  }

  function Summary(item: FridgeItem): ItemSummary {
    ItemSummary(item.id, item.name, item.quantity, item.unit, item.category)
  }

  // ---------------------------------------------------------------------------
  // Listings ordered by creation time, newest first

  predicate NewestFirst(s: seq<FridgeItem>) {
    forall j, k :: 0 <= j < k < |s| ==> s[j].createdAt >= s[k].createdAt
  }

  predicate DistinctIds(s: seq<FridgeItem>) {
    forall j, k :: 0 <= j < k < |s| ==> s[j].id != s[k].id
  }

  /** The first position holding an item created no later than x: in a newest-first
      list, everything before it is newer than x. */
  function InsertionPoint(s: seq<FridgeItem>, x: FridgeItem): (p: nat)
    ensures p <= |s|
    ensures forall k :: 0 <= k < p ==> s[k].createdAt > x.createdAt
    ensures p < |s| ==> s[p].createdAt <= x.createdAt
  {
    if s == [] || s[0].createdAt <= x.createdAt then 0 else 1 + InsertionPoint(s[1..], x)
  }

  /** Places x among the items of a list, before the first item created no later
      than x; every other item keeps its relative place. */
  function InsertNewestFirst(s: seq<FridgeItem>, x: FridgeItem): (r: seq<FridgeItem>)
    ensures |r| == |s| + 1
    ensures forall k :: 0 <= k < InsertionPoint(s, x) ==> r[k] == s[k]
    ensures r[InsertionPoint(s, x)] == x
    ensures forall k :: InsertionPoint(s, x) < k < |r| ==> r[k] == s[k - 1]
  {
    var p := InsertionPoint(s, x);
    s[..p] + [x] + s[p..]
  }

  /** Inserting keeps a newest-first list newest first. */
  lemma InsertKeepsOrder(s: seq<FridgeItem>, x: FridgeItem)
    requires NewestFirst(s)
    ensures NewestFirst(InsertNewestFirst(s, x))
  {
    var p := InsertionPoint(s, x);
    assert forall k :: p <= k < |s| ==> s[k].createdAt <= x.createdAt by {
      forall k | p <= k < |s| ensures s[k].createdAt <= x.createdAt {
        if p < k { assert s[p].createdAt >= s[k].createdAt; }
      }
    }
  }

  /** The inserted list holds the old items and x, and nothing else. */
  lemma InsertMembers(s: seq<FridgeItem>, x: FridgeItem)
    ensures forall y :: y in InsertNewestFirst(s, x) <==> y in s || y == x
  {
    var p := InsertionPoint(s, x);
    var r := InsertNewestFirst(s, x);
    forall y | y in s ensures y in r {
      var m :| 0 <= m < |s| && s[m] == y;
      if m < p { assert r[m] == y; } else { assert r[m + 1] == y; }
    }
    forall y | y in r ensures y in s || y == x {
      var m :| 0 <= m < |r| && r[m] == y;
      if m < p { assert s[m] == y; } else if m > p { assert s[m - 1] == y; }
    }
  }

  /** Inserting an item with a fresh id keeps the ids distinct. */
  lemma InsertKeepsDistinct(s: seq<FridgeItem>, x: FridgeItem)
    requires DistinctIds(s) && forall y :: y in s ==> y.id != x.id
    ensures DistinctIds(InsertNewestFirst(s, x))
  {
    var p := InsertionPoint(s, x);
    var r := InsertNewestFirst(s, x);
    forall j, k | 0 <= j < k < |r| ensures r[j].id != r[k].id {
      if j == p { assert r[k] in s; } else if k == p { assert r[j] in s; }
    }
  }

  /** The items of user `uid`, each once, newest first. */
  predicate IsListing(items: map<nat, FridgeItem>, uid: nat, r: seq<FridgeItem>) {
    && (forall k :: 0 <= k < |r| ==> r[k].id in items && items[r[k].id] == r[k] && r[k].userId == uid)
    && (forall i :: i in items && items[i].userId == uid ==> items[i] in r)
    && DistinctIds(r)
    && NewestFirst(r)
  }

  /** A user's listing holds exactly that user's items: another user's listing, or
      an item of someone else, never appears in it. */
  lemma ListingsAreDisjoint(items: map<nat, FridgeItem>, u1: nat, u2: nat, r1: seq<FridgeItem>, r2: seq<FridgeItem>)
    requires u1 != u2 && IsListing(items, u1, r1) && IsListing(items, u2, r2)
    ensures forall x :: x in r1 ==> x !in r2
  {
    forall x | x in r1 ensures x !in r2 {
      var k :| 0 <= k < |r1| && r1[k] == x;
      assert x.userId == u1;
    }
  }

  /** The identifiers in a listing are one to one with its items. */
  lemma ListingIds(items: map<nat, FridgeItem>, uid: nat, r: seq<FridgeItem>)
    requires forall i :: i in items ==> items[i].id == i
    requires IsListing(items, uid, r)
    ensures forall i :: i in items && items[i].userId == uid <==> exists k :: 0 <= k < |r| && r[k].id == i
  {
    forall i | i in items && items[i].userId == uid ensures exists k :: 0 <= k < |r| && r[k].id == i {
      var k :| 0 <= k < |r| && r[k] == items[i];
      assert r[k].id == items[i].id;
    }
  }

  // ---------------------------------------------------------------------------
  // The database

  /** Some user of the table has this id. */
  ghost predicate HasUser(users: map<string, User>, uid: nat) {
    exists c :: c in users && users[c].id == uid
  }

  class Database {
    var users: map<string, User>
    var items: map<nat, FridgeItem>
    var nextUserId: nat
    var nextItemId: nat

    /** Users are stored under their external id and have distinct ids below the
        next one to issue; items are stored under their id, below the next one to
        issue, and belong to an existing user. */
    ghost predicate Valid()
      reads this
    {
      && (forall c :: c in users ==> users[c].clerkId == c && users[c].id < nextUserId)
      && (forall c, d :: c in users && d in users && c != d ==> users[c].id != users[d].id)
      && (forall i :: i in items ==> items[i].id == i && i < nextItemId && HasUser(users, items[i].userId))
    }

    constructor ()
      ensures Valid()
      ensures users == map[] && items == map[]
    {
      users := map[];
      items := map[];
      nextUserId := 0;
      nextItemId := 0;
    }

    /** The database record of the caller, when the caller is signed in and known. */
    function CurrentUser(auth: Option<Principal>): Option<User>
      reads this
    {
      var clerkId := SignedIn(auth);
      if clerkId.Some? && clerkId.value in users then Some(users[clerkId.value]) else None
    }

    /** True when the caller's record owns the item with this id. */
    function Owns(auth: Option<Principal>, itemId: nat): bool
      reads this
    {
      var user := CurrentUser(auth);
      user.Some? && itemId in items && items[itemId].userId == user.value.id
    }

    /** The items of one user, newest first (the store's filtered, ordered query). */
    method OwnedItems(uid: nat) returns (r: seq<FridgeItem>)
      requires Valid()
      ensures IsListing(items, uid, r)
    {
      var pending := items.Keys;
      r := [];
      while pending != {}
        invariant pending <= items.Keys
        invariant forall k :: 0 <= k < |r| ==>
          r[k].id in items && items[r[k].id] == r[k] && r[k].userId == uid && r[k].id !in pending
        invariant forall i :: i in items && i !in pending && items[i].userId == uid ==> items[i] in r
        invariant DistinctIds(r) && NewestFirst(r)
        decreases |pending|
      {
        var i :| i in pending;
        pending := pending - {i};
        if items[i].userId == uid {
          forall y | y in r ensures y.id != i {
            var k :| 0 <= k < |r| && r[k] == y;
          }
          ghost var before := r;
          InsertKeepsOrder(r, items[i]);
          InsertMembers(r, items[i]);
          InsertKeepsDistinct(r, items[i]);
          r := InsertNewestFirst(r, items[i]);
          forall k | 0 <= k < |r|
            ensures r[k].id in items && items[r[k].id] == r[k] && r[k].userId == uid && r[k].id !in pending
          {
            assert r[k] in r;
            if r[k] != items[i] {
              var m :| 0 <= m < |before| && before[m] == r[k];
            }
          }
        }
      }
    }

    /** The record stored under an external id, with its items, or None. */
    method GetUserByClerkId(clerkId: string) returns (r: Option<UserWithItems>)
      requires Valid()
      ensures r.None? <==> clerkId !in users
      ensures r.Some? ==> r.value.user == users[clerkId]
      ensures r.Some? ==> r.value.user.clerkId == clerkId
      ensures r.Some? ==> IsListing(items, users[clerkId].id, r.value.fridgeItems)
    {
      if clerkId in users {
        var fridgeItems := OwnedItems(users[clerkId].id);
        r := Some(UserWithItems(users[clerkId], fridgeItems));
      } else {
        r := None;
      }
    }

    /** The caller's record, or None when nobody is signed in or the caller has no
        record yet. Never creates one. */
    method GetCurrentUser(auth: Option<Principal>) returns (r: Option<UserWithItems>)
      requires Valid()
      ensures SignedIn(auth).None? ==> r.None?
      ensures r.None? <==> CurrentUser(auth).None?
      ensures r.Some? ==> r.value.user == CurrentUser(auth).value
      ensures r.Some? ==> r.value.user.clerkId == auth.value.clerkId
      ensures r.Some? ==> IsListing(items, r.value.user.id, r.value.fridgeItems)
    {
      var clerkId := SignedIn(auth);
      if clerkId.None? {
        return None;
      }
      r := GetUserByClerkId(clerkId.value);
    }

    /** The caller's record, created on first use with the caller's external id and
        email claim. */
    method GetOrCreateUser(auth: Option<Principal>) returns (r: Result<User, string>)
      requires Valid()
      modifies this
      ensures Valid()
      ensures items == old(items) && nextItemId == old(nextItemId)
      ensures SignedIn(auth).None? ==> r == Failure(NotAuthenticated) && users == old(users)
      ensures SignedIn(auth).Some? ==>
        r.Success? && auth.value.clerkId in users && r.value == users[auth.value.clerkId]
      ensures SignedIn(auth).Some? && auth.value.clerkId in old(users) ==>
        users == old(users) && r.value == old(users)[auth.value.clerkId]
      ensures SignedIn(auth).Some? && auth.value.clerkId !in old(users) ==>
        r.value == User(old(nextUserId), auth.value.clerkId, StoredEmail(auth.value.email))
        && users == old(users)[auth.value.clerkId := r.value]
    {
      var clerkId := SignedIn(auth);
      if clerkId.None? {
        return Failure(NotAuthenticated);
      }
      var user: Option<User> := if clerkId.value in users then Some(users[clerkId.value]) else None;
      if user.None? {
        var created := User(nextUserId, clerkId.value, StoredEmail(auth.value.email));
        ghost var before := users;
        users := users[clerkId.value := created];
        nextUserId := nextUserId + 1;
        forall i | i in items ensures HasUser(users, items[i].userId) {
          var c :| c in before && before[c].id == items[i].userId;
          assert users[c] == before[c];
        }
        user := Some(created);
      }
      r := Success(user.value);
    }

    /** Two calls in a row for the same caller give the same record, and the second
        call creates nothing. */
    method GetOrCreateUserTwice(auth: Option<Principal>) returns (first: Result<User, string>, second: Result<User, string>)
      requires Valid()
      modifies this
      ensures Valid()
      ensures first == second
      ensures SignedIn(auth).Some? ==> users.Keys == old(users.Keys) + {auth.value.clerkId}
      ensures SignedIn(auth).None? ==> users == old(users)
    {
      first := GetOrCreateUser(auth);
      ghost var between := users;
      second := GetOrCreateUser(auth);
      assert users == between;
    }

    /** The caller's items, newest first. */
    method GetFridgeItems(auth: Option<Principal>) returns (r: Result<seq<FridgeItem>, string>)
      requires Valid()
      ensures r.Failure? <==> CurrentUser(auth).None?
      ensures r.Failure? ==> r.error == NotAuthenticated
      ensures r.Success? ==> IsListing(items, CurrentUser(auth).value.id, r.value)
    {
      var user := GetCurrentUser(auth);
      if user.None? {
        return Failure(NotAuthenticated);
      }
      var listing := OwnedItems(user.value.user.id);
      r := Success(listing);
    }

    /** Stores a new item owned by the caller, creating the caller's record first when
        there is none. */
    method AddFridgeItem(auth: Option<Principal>, data: FridgeItemData, now: int) returns (r: Result<FridgeItem, string>)
      requires Valid()
      modifies this
      ensures Valid()
      ensures SignedIn(auth).None? ==> r == Failure(NotAuthenticated) && items == old(items) && users == old(users)
      ensures SignedIn(auth).Some? ==>
        && r.Success?
        && auth.value.clerkId in users
        && r.value == FridgeItem(old(nextItemId), users[auth.value.clerkId].id,
                                 data.name, data.quantity, data.unit, data.category, now, now)
        && r.value.id !in old(items)
        && items == old(items)[r.value.id := r.value]
      ensures SignedIn(auth).Some? && auth.value.clerkId in old(users) ==> users == old(users)
      ensures SignedIn(auth).Some? && auth.value.clerkId !in old(users) ==>
        users == old(users)[auth.value.clerkId := User(old(nextUserId), auth.value.clerkId, StoredEmail(auth.value.email))]
    {
      var user := GetOrCreateUser(auth);
      if user.Failure? {
        return Failure(user.error);
      }
      var item := FridgeItem(nextItemId, user.value.id, data.name, data.quantity, data.unit, data.category, now, now);
      assert HasUser(users, user.value.id) by {
        assert users[auth.value.clerkId].id == user.value.id;
      }
      items := items[nextItemId := item];
      nextItemId := nextItemId + 1;
      r := Success(item);
    }

    /** Writes the patch onto an item of the caller's. A missing item and an item of
        someone else give one and the same error, and leave the table as it was. */
    method UpdateFridgeItem(auth: Option<Principal>, itemId: nat, patch: FridgeItemPatch, now: int)
      returns (r: Result<FridgeItem, string>)
      requires Valid()
      modifies this
      ensures Valid()
      ensures users == old(users) && nextUserId == old(nextUserId) && nextItemId == old(nextItemId)
      ensures r.Success? <==> old(Owns(auth, itemId))
      ensures old(CurrentUser(auth)).None? ==> r == Failure(NotAuthenticated)
      ensures old(CurrentUser(auth)).Some? && !old(Owns(auth, itemId)) ==> r == Failure(NotFoundOrDenied)
      ensures r.Failure? ==> items == old(items)
      ensures r.Success? ==>
        r.value == ApplyPatch(old(items)[itemId], patch, now) && items == old(items)[itemId := r.value]
    {
      var user := GetCurrentUser(auth);
      if user.None? {
        return Failure(NotAuthenticated);
      }
      var existing := itemId in items && items[itemId].userId == user.value.user.id;
      if !existing {
        return Failure(NotFoundOrDenied);
      }
      var updated := ApplyPatch(items[itemId], patch, now);
      items := items[itemId := updated];
      r := Success(updated);
    }

    /** Removes an item of the caller's, under the same ownership check as an update. */
    method DeleteFridgeItem(auth: Option<Principal>, itemId: nat) returns (r: Result<FridgeItem, string>)
      requires Valid()
      modifies this
      ensures Valid()
      ensures users == old(users) && nextUserId == old(nextUserId) && nextItemId == old(nextItemId)
      ensures r.Success? <==> old(Owns(auth, itemId))
      ensures old(CurrentUser(auth)).None? ==> r == Failure(NotAuthenticated)
      ensures old(CurrentUser(auth)).Some? && !old(Owns(auth, itemId)) ==> r == Failure(NotFoundOrDenied)
      ensures r.Failure? ==> items == old(items)
      ensures r.Success? ==> r.value == old(items)[itemId] && items == old(items) - {itemId}
    {
      var user := GetCurrentUser(auth);
      if user.None? {
        return Failure(NotAuthenticated);
      }
      var existing := itemId in items && items[itemId].userId == user.value.user.id;
      if !existing {
        return Failure(NotFoundOrDenied);
      }
      r := Success(items[itemId]);
      items := items - {itemId};
    }

    /** The caller's items in the shape meal-plan generation takes; an empty list,
        not a failure, when there is no current user. */
    method GetFridgeItemsForMealPlan(auth: Option<Principal>) returns (r: seq<ItemSummary>)
      requires Valid()
      ensures CurrentUser(auth).None? ==> r == []
      ensures CurrentUser(auth).Some? ==> forall k :: 0 <= k < |r| ==>
        r[k].id in items && r[k] == Summary(items[r[k].id]) && items[r[k].id].userId == CurrentUser(auth).value.id
      ensures CurrentUser(auth).Some? ==> forall i :: i in items && items[i].userId == CurrentUser(auth).value.id ==>
        Summary(items[i]) in r
      ensures forall j, k :: 0 <= j < k < |r| ==> r[j].id != r[k].id
    {
      var user := GetCurrentUser(auth);
      if user.None? {
        return [];
      }
      var listing := OwnedItems(user.value.user.id);
      r := seq(|listing|, k requires 0 <= k < |listing| => Summary(listing[k]));
      forall i | i in items && items[i].userId == user.value.user.id ensures Summary(items[i]) in r {
        var k :| 0 <= k < |listing| && listing[k] == items[i];
        assert r[k] == Summary(items[i]);
      }
    }
  }
}
