/** The `users` table and the three queries the services run on it, with
    the semantics of their SQL. The table is the sequence of its rows in
    insertion order; the database assigns `id` and `created_at`. */
module UserRepo {
  import opened Base

  /** A row of `users`, as `findUserAuthByEmail` selects it. */
  datatype Record = Record(id: string, email: string, passwordHash: string, role: string, createdAt: int)

  /** The public projection of a row: every column but the password hash. */
  datatype UserDto = UserDto(id: string, email: string, role: string, createdAt: int)

  type Store = seq<Record>

  /** The columns `createUser` inserts. */
  datatype NewUser = NewUser(email: string, passwordHash: string, role: string)

  function Public(r: Record): (u: UserDto)
    ensures u.id == r.id && u.email == r.email && u.role == r.role && u.createdAt == r.createdAt
  {
    UserDto(r.id, r.email, r.role, r.createdAt)
  }

  /** No two rows share an email. */
  predicate UniqueEmails(store: Store) {
    forall i, j :: 0 <= i < j < |store| ==> store[i].email != store[j].email
  }

  predicate HasEmail(store: Store, email: string) {
    exists i :: 0 <= i < |store| && store[i].email == email
  }

  /** The credential lookup: at most one row whose email equals the
      argument exactly (the first in table order), or null when there is
      none. */
  function FindUserAuthByEmail(store: Store, email: string): (r: Option<Record>)
    ensures r.Some? ==> r.value in store && r.value.email == email
    ensures r.None? <==> !HasEmail(store, email)
    ensures UniqueEmails(store) ==>
              forall i :: 0 <= i < |store| && store[i].email == email ==> r == Some(store[i])
  {
    if |store| == 0 then None
    else if store[0].email == email then Some(store[0])
    else
      var r := FindUserAuthByEmail(store[1..], email);
      assert forall i :: 0 < i < |store| ==> store[i] == store[1..][i - 1];
      r
  }

  /** The insert: appends one row with the given columns and the
      database-assigned id and timestamp, and returns the new row's public
      columns. */
  function CreateUser(store: Store, input: NewUser, id: string, createdAt: int): (r: (Store, UserDto))
    ensures |r.0| == |store| + 1 && r.0[..|store|] == store
    ensures r.0[|store|] == Record(id, input.email, input.passwordHash, input.role, createdAt)
    ensures r.1 == Public(r.0[|store|])
  {
    var row := Record(id, input.email, input.passwordHash, input.role, createdAt);
    (store + [row], Public(row))
  }

  /** A row inserted under a fresh email is what a lookup of that email
      finds afterwards; lookups of other emails find what they found before. */
  lemma {:induction false} FindAfterCreate(store: Store, input: NewUser, id: string, createdAt: int, email: string)
    requires !HasEmail(store, input.email)
    ensures var (store', user) := CreateUser(store, input, id, createdAt);
            && (email == input.email ==> FindUserAuthByEmail(store', email) == Some(store'[|store|]))
            && (email != input.email ==> FindUserAuthByEmail(store', email) == FindUserAuthByEmail(store, email))
    decreases |store|
  {
    var (store', user) := CreateUser(store, input, id, createdAt);
    if |store| > 0 {
      assert store'[1..] == CreateUser(store[1..], input, id, createdAt).0;
      assert !HasEmail(store[1..], input.email) by {
        forall k | 0 <= k < |store[1..]| ensures store[1..][k].email != input.email {
          assert store[1..][k] == store[k + 1];
        }
      }
      FindAfterCreate(store[1..], input, id, createdAt, email);
    }
  }

  /** Default page size of `listUsers`. */
  const DefaultLimit := 50

  /** Newest first by creation time. */
  predicate NewestFirst(s: seq<UserDto>) {
    forall i, j :: 0 <= i < j < |s| ==> s[i].createdAt >= s[j].createdAt
  }

  /** The projections of all rows, in table order. */
  function PublicRows(store: Store): (s: seq<UserDto>)
    ensures |s| == |store|
    ensures forall i :: 0 <= i < |store| ==> s[i] == Public(store[i])
  {
    seq(|store|, i requires 0 <= i < |store| => Public(store[i]))
  }

  /** Places `x` into a newest-first list, before every row no newer. */
  function InsertNewest(x: UserDto, s: seq<UserDto>): (r: seq<UserDto>)
    requires NewestFirst(s)
    ensures NewestFirst(r)
    ensures multiset(r) == multiset(s) + multiset{x}
    ensures |r| == |s| + 1 && (r[0] == x || (|s| > 0 && r[0] == s[0]))
  {
    if |s| == 0 || x.createdAt >= s[0].createdAt then [x] + s
    else
      var t := InsertNewest(x, s[1..]);
      assert multiset(s) == multiset{s[0]} + multiset(s[1..]) by {
        assert s == [s[0]] + s[1..];
      }
      var r := [s[0]] + t;
      assert s[0].createdAt >= t[0].createdAt;
      forall i, j | 0 <= i < j < |r| ensures r[i].createdAt >= r[j].createdAt {
        if i == 0 {
          assert r[j] == t[j - 1];
          if j > 1 { assert t[0].createdAt >= t[j - 1].createdAt; }
        } else {
          assert r[i] == t[i - 1] && r[j] == t[j - 1];
        }
      }
      r
  }

  /** The ordering by creation time, descending: the rows rearranged newest first. Rows with
      equal timestamps come out most recently inserted first. */
  function SortNewestFirst(s: seq<UserDto>): (r: seq<UserDto>)
    ensures NewestFirst(r)
    ensures multiset(r) == multiset(s)
  {
    if |s| == 0 then []
    else
      var r := InsertNewest(s[|s| - 1], SortNewestFirst(s[..|s| - 1]));
      assert s == s[..|s| - 1] + [s[|s| - 1]];
      r
  }

  function Min(a: int, b: int): int { if a <= b then a else b }

  /** A prefix of a newest-first list is newest first and draws on the
      list's elements. */
  lemma PrefixOfNewestFirst(s: seq<UserDto>, k: nat)
    requires NewestFirst(s) && k <= |s|
    ensures NewestFirst(s[..k])
    ensures multiset(s[..k]) <= multiset(s)
  {
    assert s == s[..k] + s[k..];
  }

  /** The listing: the public columns of the rows, newest first, cut to
      `limit` rows, 50 by default; PostgreSQL rejects a negative limit,
      which surfaces as an unclassified error. */
  function ListUsers(store: Store, limit: Option<int>): (r: Result<seq<UserDto>, ErrorCode>)
    ensures r.Failure? <==> limit.GetOr(DefaultLimit) < 0
    ensures r.Failure? ==> r.error == Internal
    ensures r.Success? ==> |r.value| == Min(limit.GetOr(DefaultLimit), |store|)
    ensures r.Success? ==> NewestFirst(r.value)
    ensures r.Success? ==> multiset(r.value) <= multiset(PublicRows(store))
  {
    var n := limit.GetOr(DefaultLimit);
    if n < 0 then Failure(Internal)
    else
      var sorted := SortNewestFirst(PublicRows(store));
      assert |sorted| == |multiset(sorted)| == |store|;
      var r := sorted[..Min(n, |store|)];
      PrefixOfNewestFirst(sorted, |r|);
      Success(r)
  }

  /** The listing is the newest rows: a row left out of the page is no newer
      than any row on it, and every row is on it when the limit allows. */
  lemma {:induction false} ListUsersIsNewestPage(store: Store, limit: Option<int>, x: Record)
    requires ListUsers(store, limit).Success?
    requires x in store
    ensures var page := ListUsers(store, limit).value;
            Public(x) !in page ==> forall i :: 0 <= i < |page| ==> x.createdAt <= page[i].createdAt
    ensures limit.GetOr(DefaultLimit) >= |store| ==> Public(x) in ListUsers(store, limit).value
  {
    var n := limit.GetOr(DefaultLimit);
    var rows := PublicRows(store);
    var sorted := SortNewestFirst(rows);
    assert |sorted| == |multiset(sorted)| == |store|;
    var page := ListUsers(store, limit).value;
    assert page == sorted[..Min(n, |store|)];
    var j := SortedPosition(store, sorted, x);
    if j < |page| {
      assert page[j] == Public(x);
    }
    if Public(x) !in page {
      forall i | 0 <= i < |page| ensures x.createdAt <= page[i].createdAt {
        assert page[i] == sorted[i];
      }
    }
  }

  /** Where a row's projection sits in the sorted listing. */
  lemma SortedPosition(store: Store, sorted: seq<UserDto>, x: Record) returns (j: nat)
    requires x in store
    requires multiset(sorted) == multiset(PublicRows(store))
    ensures j < |sorted| && sorted[j] == Public(x)
  {
    var k :| 0 <= k < |store| && store[k] == x;
    assert PublicRows(store)[k] == Public(x);
    assert Public(x) in multiset(PublicRows(store));
    j :| 0 <= j < |sorted| && sorted[j] == Public(x);
  }
}
