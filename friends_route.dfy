/**
  * The friends endpoint (src/app/api/friends/route.ts) over an in-memory friendship
  * table: the user search with its relation annotations, the friend list, and the
  * requests that add, accept, refuse and remove friendships.
  */
module FriendsRoute {
  import opened Wrappers
  import opened Api
  import opened JsText
  import opened Seqs

  /** A row of the friendship table: userId asked friendId; status is "pending" or "accepted". */
  datatype Friendship = Friendship(id: int, userId: string, friendId: string, status: string)

  /** The selected fields of a user. */
  datatype UserProfile = UserProfile(id: string, pseudo: string, avatar: string)

  /** A search result: the user, the status of the relation with the searcher, and who asked. */
  datatype SearchHit = SearchHit(user: UserProfile, relationStatus: Option<string>, isRequester: bool)

  datatype FriendsResponse =
    | FriendsRefused(status: int, error: string)
    | SearchResults(users: seq<SearchHit>)
    | PendingRequests(pending: seq<Friendship>)
    | FriendList(friends: seq<string>, receivedRequests: seq<Friendship>)

  datatype ChangeResponse = Refused(status: int, error: string) | Done(friendship: Option<Friendship>, message: string)

  const MissingPair := "userId et friendId requis"
  const SelfRequest := "Impossible de s'ajouter soi-même"
  const AlreadyFriends := "Vous êtes déjà amis"
  const AlreadyRequested := "Demande déjà envoyée"
  const RequestSent := "Demande envoyée !"
  const MissingAnswer := "friendshipId et status requis"
  const FriendAdded := "Ami ajouté !"
  const RequestRefused := "Demande refusée"
  const FriendRemoved := "Ami supprimé"
  const SearchLimit := 10

  /** The row relates a and b, in one direction or the other. */
  predicate Between(f: Friendship, a: string, b: string) {
    (f.userId == a && f.friendId == b) || (f.userId == b && f.friendId == a)
  }

  // ----- GET: search -----

  /** The users the search keeps: not the searcher, and whose lower-cased pseudo includes the lower-cased query. */
  function Matches(userId: string, search: string): UserProfile -> bool {
    (u: UserProfile) => u.id != userId && Includes(ToLower(u.pseudo), ToLower(search))
  }

  /** `.slice(0, 10)` */
  function FirstTen<T>(s: seq<T>): (r: seq<T>)
    ensures |r| == if |s| <= SearchLimit then |s| else SearchLimit
    ensures r <= s
  {
    if |s| <= SearchLimit then s else s[..SearchLimit]
  }

  /** `existingRelations.find(...)`: the first row relating a and b. */
  function FirstRelation(rows: seq<Friendship>, a: string, b: string): (r: Option<Friendship>)
    ensures r.Some? ==> r.value in rows && Between(r.value, a, b)
    ensures r.None? ==> forall f :: f in rows ==> !Between(f, a, b)
  {
    if rows == [] then None
    else if Between(rows[0], a, b) then Some(rows[0])
    else FirstRelation(rows[1..], a, b)
  }

  /** `relationStatus: relation?.status || null` and `isRequester: relation?.userId === userId`. */
  function Annotate(rows: seq<Friendship>, userId: string, u: UserProfile): SearchHit {
    var relation := FirstRelation(rows, userId, u.id);
    SearchHit(u,
      if relation.Some? && relation.value.status != "" then Some(relation.value.status) else None,
      relation.Some? && relation.value.userId == userId)
  }

  /** The search: filter, keep the first ten, annotate each with its relation to the searcher. */
  function Search(users: seq<UserProfile>, rows: seq<Friendship>, userId: string, search: string): seq<SearchHit> {
    var found := FirstTen(Filter(users, Matches(userId, search)));
    seq(|found|, i requires 0 <= i < |found| => Annotate(rows, userId, found[i]))
  }

  /**
    * The first ten matches, or all of them when fewer match, in the order of the user
    * table: each a user other than the searcher whose pseudo includes the query,
    * lower-cased on both sides.
    */
  lemma SearchResultsSpec(users: seq<UserProfile>, rows: seq<Friendship>, userId: string, search: string)
    ensures var hits, found := Search(users, rows, userId, search), Filter(users, Matches(userId, search));
      && |hits| == (if |found| <= SearchLimit then |found| else SearchLimit)
      && (forall i :: 0 <= i < |hits| ==> hits[i].user == found[i])
      && (forall h :: h in hits ==>
            h.user in users && h.user.id != userId && Includes(ToLower(h.user.pseudo), ToLower(search)))
      && (|found| <= SearchLimit ==> forall u :: u in users && Matches(userId, search)(u) ==>
            exists i :: 0 <= i < |hits| && hits[i].user == u)
  {
    var hits, found := Search(users, rows, userId, search), Filter(users, Matches(userId, search));
    forall h | h in hits
      ensures h.user in users && h.user.id != userId && Includes(ToLower(h.user.pseudo), ToLower(search))
    {
      var i :| 0 <= i < |hits| && hits[i] == h;
      assert h.user == found[i] && found[i] in found;
    }
    if |found| <= SearchLimit {
      forall u | u in users && Matches(userId, search)(u)
        ensures exists i :: 0 <= i < |hits| && hits[i].user == u
      {
        FilterComplete(users, Matches(userId, search), u);
        var i :| 0 <= i < |found| && found[i] == u;
        assert hits[i].user == u;
      }
    }
  }

  // ----- The table invariant -----

  /** Two distinct rows: different ids and different pairs of users. */
  predicate Apart(f: Friendship, g: Friendship) {
    f.id != g.id && !Between(g, f.userId, f.friendId)
  }

  /** A single row: no self-friendship, a positive id below the next one, a known status. */
  predicate WellFormed(f: Friendship, nextId: int) {
    f.userId != f.friendId && 0 < f.id < nextId && (f.status == "pending" || f.status == "accepted")
  }

  /** The friendship table invariant: well-formed rows, unique ids, at most one row per pair of users. */
  predicate ValidRows(rows: seq<Friendship>, nextId: int) {
    && nextId >= 1
    && (forall i :: 0 <= i < |rows| ==> WellFormed(rows[i], nextId))
    && (forall i, j :: 0 <= i < j < |rows| ==> Apart(rows[i], rows[j]))
  }

  /** Under the invariant, a pair of users has one row at most. */
  lemma OneRowPerPair(rows: seq<Friendship>, nextId: int, a: string, b: string, x: Friendship, y: Friendship)
    requires ValidRows(rows, nextId)
    requires x in rows && y in rows && Between(x, a, b) && Between(y, a, b)
    ensures x == y
  {
    var i :| 0 <= i < |rows| && rows[i] == x;
    var j :| 0 <= j < |rows| && rows[j] == y;
    assert i == j || Apart(rows[i], rows[j]) || Apart(rows[j], rows[i]);
  }

  /** A row placed in front of a valid table apart from all of its rows keeps it valid. */
  lemma ConsValid(x: Friendship, rows: seq<Friendship>, nextId: int)
    requires ValidRows(rows, nextId) && WellFormed(x, nextId)
    requires forall y :: y in rows ==> Apart(x, y)
    ensures ValidRows([x] + rows, nextId)
  {
    var s := [x] + rows;
    forall i, j | 0 <= i < j < |s|
      ensures Apart(s[i], s[j])
    {
      if i == 0 {
        assert s[j] == rows[j - 1] && rows[j - 1] in rows;
      } else {
        assert s[i] == rows[i - 1] && s[j] == rows[j - 1];
      }
    }
  }

  /** Removing rows keeps the invariant. */
  lemma {:induction false} FilterValid(rows: seq<Friendship>, nextId: int, keep: Friendship -> bool)
    requires ValidRows(rows, nextId)
    ensures ValidRows(Filter(rows, keep), nextId)
  {
    if rows != [] {
      var tail := rows[1..];
      assert ValidRows(tail, nextId) by {
        forall i, j | 0 <= i < j < |tail|
          ensures Apart(tail[i], tail[j])
        {
          assert tail[i] == rows[i + 1] && tail[j] == rows[j + 1];
        }
      }
      FilterValid(tail, nextId, keep);
      if keep(rows[0]) {
        forall y | y in Filter(tail, keep)
          ensures Apart(rows[0], y)
        {
          var j :| 0 <= j < |tail| && tail[j] == y;
          assert rows[j + 1] == y;
        }
        ConsValid(rows[0], Filter(tail, keep), nextId);
      }
    }
  }

  /**
    * Under the invariant the annotation is exact: no status exactly when no row relates
    * the two users, otherwise that row's status; the searcher is the requester exactly
    * when the row goes from the searcher to the user found.
    */
  lemma AnnotationSpec(rows: seq<Friendship>, nextId: int, userId: string, u: UserProfile)
    requires ValidRows(rows, nextId)
    ensures var hit := Annotate(rows, userId, u);
      && (hit.relationStatus.None? <==> forall f :: f in rows ==> !Between(f, userId, u.id))
      && (forall f :: f in rows && Between(f, userId, u.id) ==> hit.relationStatus == Some(f.status))
      && (hit.isRequester <==> exists f :: f in rows && f.userId == userId && f.friendId == u.id)
  {
    var relation := FirstRelation(rows, userId, u.id);
    if relation.Some? {
      var r := relation.value;
      var i :| 0 <= i < |rows| && rows[i] == r;
      assert WellFormed(rows[i], nextId);
      forall f | f in rows && Between(f, userId, u.id)
        ensures f == r
      {
        OneRowPerPair(rows, nextId, userId, u.id, f, r);
      }
    }
  }

  // ----- GET: lists -----

  /** The pending requests received by the user. */
  function IsReceivedRequest(userId: string): Friendship -> bool {
    (f: Friendship) => f.friendId == userId && f.status == "pending"
  }

  /** The accepted friendships the user is part of. */
  function IsAcceptedWith(userId: string): Friendship -> bool {
    (f: Friendship) => (f.userId == userId || f.friendId == userId) && f.status == "accepted"
  }

  /** The other party of a friendship. */
  function FriendOf(f: Friendship, userId: string): string {
    if f.userId == userId then f.friendId else f.userId
  }

  /** The friend list: the other party of each accepted friendship of the user. */
  function FriendsOf(rows: seq<Friendship>, userId: string): seq<string> {
    var accepted := Filter(rows, IsAcceptedWith(userId));
    seq(|accepted|, i requires 0 <= i < |accepted| => FriendOf(accepted[i], userId))
  }

  /**
    * Under the invariant the friend list holds exactly the users related to the user by
    * an accepted row, and never the user themself.
    */
  lemma FriendsOfSpec(rows: seq<Friendship>, nextId: int, userId: string, v: string)
    requires ValidRows(rows, nextId)
    ensures v in FriendsOf(rows, userId) <==> exists f :: f in rows && f.status == "accepted" && Between(f, userId, v)
    ensures userId !in FriendsOf(rows, userId)
  {
    var accepted := Filter(rows, IsAcceptedWith(userId));
    var friends := FriendsOf(rows, userId);
    if v in friends {
      var i :| 0 <= i < |friends| && friends[i] == v;
      assert accepted[i] in accepted;
      assert Between(accepted[i], userId, v);
    }
    if f :| f in rows && f.status == "accepted" && Between(f, userId, v) {
      FilterComplete(rows, IsAcceptedWith(userId), f);
      var i :| 0 <= i < |accepted| && accepted[i] == f;
      assert friends[i] == v;
    }
    forall i | 0 <= i < |friends|
      ensures friends[i] != userId
    {
      assert accepted[i] in rows;
      var k :| 0 <= k < |rows| && rows[k] == accepted[i];
      assert WellFormed(rows[k], nextId);
    }
  }

  /**
    * GET: 400 without a user id; a search when the type is "search" and a query is
    * given; the received pending requests for "pending"; otherwise the friends and the
    * received requests. The type defaults to "friends".
    */
  function GetFriends(rows: seq<Friendship>, users: seq<UserProfile>, userId: Option<string>, kind: Option<string>, search: Option<string>): (r: FriendsResponse)
    ensures r.FriendsRefused? <==> !Present(userId)
    ensures r.SearchResults? <==> Present(userId) && kind == Some("search") && Present(search)
    ensures r.SearchResults? ==> r.users == Search(users, rows, userId.value, search.value)
    ensures r.PendingRequests? <==>
      Present(userId) && !(kind == Some("search") && Present(search)) && kind == Some("pending")
    ensures r.PendingRequests? ==> r.pending == Filter(rows, IsReceivedRequest(userId.value))
    ensures r.FriendList? ==>
      r.friends == FriendsOf(rows, userId.value) && r.receivedRequests == Filter(rows, IsReceivedRequest(userId.value))
  {
    if !Present(userId) then FriendsRefused(400, MissingUserId)
    else
      var t := if Present(kind) then kind.value else "friends";
      if t == "search" && Present(search) then SearchResults(Search(users, rows, userId.value, search.value))
      else if t == "pending" then PendingRequests(Filter(rows, IsReceivedRequest(userId.value)))
      else FriendList(FriendsOf(rows, userId.value), Filter(rows, IsReceivedRequest(userId.value)))
  }

  // ----- POST, PUT, DELETE -----

  /** Keeps the rows that do not relate a and b. */
  function NotBetween(a: string, b: string): Friendship -> bool {
    (f: Friendship) => !Between(f, a, b)
  }

  /** Keeps the rows whose id is not id. */
  function OtherId(id: int): Friendship -> bool {
    (f: Friendship) => f.id != id
  }

  /** The rows with the row of that id marked accepted. */
  function Accept(rows: seq<Friendship>, id: int): (r: seq<Friendship>)
    ensures |r| == |rows|
    ensures forall i :: 0 <= i < |rows| ==> r[i] == if rows[i].id == id then rows[i].(status := "accepted") else rows[i]
  {
    seq(|rows|, i requires 0 <= i < |rows| => if rows[i].id == id then rows[i].(status := "accepted") else rows[i])
  }

  /** Accepting keeps the invariant. */
  lemma AcceptValid(rows: seq<Friendship>, nextId: int, id: int)
    requires ValidRows(rows, nextId)
    ensures ValidRows(Accept(rows, id), nextId)
  {
    var r := Accept(rows, id);
    forall i, j | 0 <= i < j < |r|
      ensures Apart(r[i], r[j])
    {
      assert Apart(rows[i], rows[j]);
    }
  }

  /** Whether the table holds a row with that id. */
  predicate HasId(rows: seq<Friendship>, id: int) {
    exists i :: 0 <= i < |rows| && rows[i].id == id
  }

  /** The friendship table and the ids of the users table. */
  class FriendshipTable {
    var rows: seq<Friendship>
    var nextId: int
    var userIds: set<string>

    predicate Valid()
      reads this
    {
      ValidRows(rows, nextId)
    }

    constructor(userIds: set<string>)
      ensures Valid() && rows == [] && nextId == 1 && this.userIds == userIds
    {
      rows := [];
      nextId := 1;
      this.userIds := userIds;
    }

    /**
      * POST: refuse missing ids, a request to oneself, an unknown friend and a pair that
      * is already related either way; otherwise add exactly one pending row.
      */
    method Post(userId: Option<string>, friendId: Option<string>) returns (resp: ChangeResponse)
      requires Valid()
      modifies this
      ensures Valid() && userIds == old(userIds)
      ensures !(Present(userId) && Present(friendId)) ==> resp == Refused(400, MissingPair) && unchanged(this)
      ensures Present(userId) && Present(friendId) ==>
        var u, f := userId.value, friendId.value;
        if u == f then resp == Refused(400, SelfRequest) && unchanged(this)
        else if f !in userIds then resp == Refused(404, UnknownUser) && unchanged(this)
        else match FirstRelation(old(rows), u, f)
          case Some(existing) =>
            resp == Refused(409, if existing.status == "accepted" then AlreadyFriends else AlreadyRequested)
            && unchanged(this)
          case None =>
            var row := Friendship(old(nextId), u, f, "pending");
            && rows == old(rows) + [row] && nextId == old(nextId) + 1
            && resp == Done(Some(row), RequestSent)
    {
      if !Present(userId) || !Present(friendId) {
        return Refused(400, MissingPair);
      }
      var u, f := userId.value, friendId.value;
      if u == f {
        return Refused(400, SelfRequest);
      }
      if f !in userIds {
        return Refused(404, UnknownUser);
      }
      var existing := FirstRelation(rows, u, f);
      if existing.Some? {
        if existing.value.status == "accepted" {
          return Refused(409, AlreadyFriends);
        }
        return Refused(409, AlreadyRequested);
      }
      var row := Friendship(nextId, u, f, "pending");
      AppendValid(rows, nextId, row);
      rows := rows + [row];
      nextId := nextId + 1;
      resp := Done(Some(row), RequestSent);
    }

    /**
      * PUT: refuse a missing id or status; an unknown id fails in the database; "accepted"
      * marks the row accepted and any other status deletes it.
      */
    method Put(friendshipId: Option<int>, status: Option<string>) returns (resp: ChangeResponse)
      requires Valid()
      modifies this
      ensures Valid() && userIds == old(userIds) && nextId == old(nextId)
      ensures friendshipId.None? || friendshipId == Some(0) || !Present(status) ==>
        resp == Refused(400, MissingAnswer) && rows == old(rows)
      ensures friendshipId.Some? && friendshipId != Some(0) && Present(status) ==>
        var id := friendshipId.value;
        if !HasId(old(rows), id) then resp == Refused(500, ServerFailure) && rows == old(rows)
        else if status.value == "accepted" then
          && rows == Accept(old(rows), id)
          && resp.Done? && resp.message == FriendAdded && resp.friendship.Some?
          && resp.friendship.value in rows && resp.friendship.value.id == id && resp.friendship.value.status == "accepted"
        else rows == Filter(old(rows), OtherId(id)) && resp == Done(None, RequestRefused)
    {
      if friendshipId.None? || friendshipId.value == 0 || !Present(status) {
        return Refused(400, MissingAnswer);
      }
      var id := friendshipId.value;
      if !HasId(rows, id) {
        return Refused(500, ServerFailure);
      }
      if status.value == "accepted" {
        AcceptValid(rows, nextId, id);
        var i :| 0 <= i < |rows| && rows[i].id == id;
        rows := Accept(rows, id);
        return Done(Some(rows[i]), FriendAdded);
      }
      FilterValid(rows, nextId, OtherId(id));
      rows := Filter(rows, OtherId(id));
      resp := Done(None, RequestRefused);
    }

    /** DELETE: refuse missing ids; otherwise remove the rows of the pair in both directions. */
    method Delete(userId: Option<string>, friendId: Option<string>) returns (resp: ChangeResponse)
      requires Valid()
      modifies this
      ensures Valid() && userIds == old(userIds) && nextId == old(nextId)
      ensures !(Present(userId) && Present(friendId)) ==> resp == Refused(400, MissingPair) && rows == old(rows)
      ensures Present(userId) && Present(friendId) ==>
        rows == Filter(old(rows), NotBetween(userId.value, friendId.value)) && resp == Done(None, FriendRemoved)
    {
      if !Present(userId) || !Present(friendId) {
        return Refused(400, MissingPair);
      }
      FilterValid(rows, nextId, NotBetween(userId.value, friendId.value));
      rows := Filter(rows, NotBetween(userId.value, friendId.value));
      resp := Done(None, FriendRemoved);
    }
  }

  /** A new pending row with a fresh id for a pair with no row keeps the table valid. */
  lemma AppendValid(rows: seq<Friendship>, nextId: int, row: Friendship)
    requires ValidRows(rows, nextId)
    requires row == Friendship(nextId, row.userId, row.friendId, "pending") && row.userId != row.friendId
    requires FirstRelation(rows, row.userId, row.friendId).None?
    ensures ValidRows(rows + [row], nextId + 1)
  {
    var s := rows + [row];
    forall i, j | 0 <= i < j < |s|
      ensures Apart(s[i], s[j])
    {
      if j == |rows| {
        assert s[i] == rows[i] && rows[i] in rows && WellFormed(rows[i], nextId);
      } else {
        assert s[i] == rows[i] && s[j] == rows[j];
      }
    }
    forall i | 0 <= i < |s|
      ensures WellFormed(s[i], nextId + 1)
    {
      if i < |rows| {
        assert s[i] == rows[i] && WellFormed(rows[i], nextId);
      }
    }
  }

  /**
    * DELETE removes every row between the two users, in both directions, and keeps every
    * other row, in order.
    */
  lemma DeleteSpec(rows: seq<Friendship>, a: string, b: string)
    ensures forall f :: f in Filter(rows, NotBetween(a, b)) ==> !Between(f, a, b)
    ensures forall f :: f in rows && !Between(f, a, b) ==> f in Filter(rows, NotBetween(a, b))
    ensures (forall f :: f in rows ==> !Between(f, a, b)) ==> Filter(rows, NotBetween(a, b)) == rows
  {
    forall f | f in rows && !Between(f, a, b)
      ensures f in Filter(rows, NotBetween(a, b))
    {
      FilterComplete(rows, NotBetween(a, b), f);
    }
    if forall f :: f in rows ==> !Between(f, a, b) {
      FilterAll(rows, NotBetween(a, b));
    }
  }

  /** Refusing a request removes exactly the row of that id under the invariant's unique ids. */
  lemma RefuseSpec(rows: seq<Friendship>, id: int)
    ensures forall f :: f in Filter(rows, OtherId(id)) ==> f.id != id
    ensures forall f :: f in rows && f.id != id ==> f in Filter(rows, OtherId(id))
  {
    forall f | f in rows && f.id != id
      ensures f in Filter(rows, OtherId(id))
    {
      FilterComplete(rows, OtherId(id), f);
    }
  }
}
