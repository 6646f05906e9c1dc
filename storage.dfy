/** The server's in-memory store: a table of users and a table of newsletter
    subscriptions, both keyed by id and both lost when the process ends. */
module Storage {

  datatype Option<T> = None | Some(value: T)

  /** The fields a caller supplies for a new user. */
  datatype InsertUser = InsertUser(username: string, password: string)

  datatype User = User(id: string, username: string, password: string)

  /** The fields a caller supplies for a new subscription. */
  datatype InsertSubscription = InsertSubscription(name: string, email: string)

  /** A stored subscription; `createdAt` is a timestamp in milliseconds.  */
  datatype Subscription = Subscription(id: string, name: string, email: string, createdAt: int)

  /** How many subscriptions a new store is seeded with. */
  const BaseCount: nat := 11950

  // ---------------------------------------------------------------------
  // Decimal rendering, as a template literal renders a natural number

  function DigitChar(d: nat): (c: char)
    requires d < 10
    ensures '0' <= c <= '9' && DigitValue(c) == d
  {
    ('0' as int + d) as char
  }

  function DigitValue(c: char): (d: nat)
  {
    if '0' <= c <= '9' then c as int - '0' as int else 0
  }

  /** The decimal digits of `n`, most significant first, no leading zero. */
  function Decimal(n: nat): (s: string)
    ensures |s| > 0 && (s[0] == '0' ==> n == 0)
    ensures forall k :: 0 <= k < |s| ==> '0' <= s[k] <= '9'
    decreases n
  {
    if n < 10 then [DigitChar(n)] else Decimal(n / 10) + [DigitChar(n % 10)]
  }

  /** The number a string of decimal digits denotes. */
  function DecimalValue(s: string): (v: nat)
    decreases |s|
  {
    if s == [] then 0 else DecimalValue(s[..|s| - 1]) * 10 + DigitValue(s[|s| - 1])
  }

  /** Reading back a rendered number gives the number. */
  lemma {:induction false} DecimalRoundTrip(n: nat)
    ensures DecimalValue(Decimal(n)) == n
    decreases n
  {
    if n >= 10 {
      var s := Decimal(n);
      assert s[..|s| - 1] == Decimal(n / 10);
      DecimalRoundTrip(n / 10);
    } else {
      assert Decimal(n)[..0] == [];
    }
  }

  // ---------------------------------------------------------------------
  // The seeded subscriptions

  /** Seeded subscription `i` (counting from 0). */
  function SeedSubscription(i: nat, id: string, createdAt: int): (sub: Subscription)
  {
    Subscription(id, "User " + Decimal(i + 1), "user" + Decimal(i + 1) + "@example.com", createdAt)
  }

  /** Seeded subscriptions have pairwise different names and emails. */
  lemma SeedNamesDistinct(i: nat, j: nat, id1: string, id2: string, t1: int, t2: int)
    requires i != j
    ensures SeedSubscription(i, id1, t1).name != SeedSubscription(j, id2, t2).name
    ensures SeedSubscription(i, id1, t1).email != SeedSubscription(j, id2, t2).email
  {
    var a, b := SeedSubscription(i, id1, t1), SeedSubscription(j, id2, t2);
    DecimalRoundTrip(i + 1);
    DecimalRoundTrip(j + 1);
    assert a.name[5..] == Decimal(i + 1) && b.name[5..] == Decimal(j + 1);
    assert a.email[4..4 + |Decimal(i + 1)|] == Decimal(i + 1);
    assert b.email[4..4 + |Decimal(j + 1)|] == Decimal(j + 1);
    assert |a.email| == |Decimal(i + 1)| + 16 && |b.email| == |Decimal(j + 1)| + 16;
  }

  /** The subscriptions table after the first `n` seeding iterations, each
      `set` overwriting an entry with the same id. */
  function SeedTable(ids: seq<string>, stamps: seq<int>, n: nat): (table: map<string, Subscription>)
    requires n <= |ids| && n <= |stamps|
    decreases n
  {
    if n == 0 then map[]
    else SeedTable(ids, stamps, n - 1)[ids[n - 1] := SeedSubscription(n - 1, ids[n - 1], stamps[n - 1])]
  }

  predicate Distinct(ids: seq<string>)
  {
    forall a, b :: 0 <= a < b < |ids| ==> ids[a] != ids[b]
  }

  /** Every seeded entry is stored under its own id. */
  lemma {:induction false} SeedTableIds(ids: seq<string>, stamps: seq<int>, n: nat)
    requires n <= |ids| && n <= |stamps|
    ensures forall id :: id in SeedTable(ids, stamps, n) ==> SeedTable(ids, stamps, n)[id].id == id
    decreases n
  {
    if n > 0 {
      SeedTableIds(ids, stamps, n - 1);
    }
  }

  /** `n` seeding iterations store entries exactly under `ids[..n]`. */
  lemma {:induction false} SeedTableKeys(ids: seq<string>, stamps: seq<int>, n: nat)
    requires n <= |ids| && n <= |stamps|
    ensures forall id :: id in SeedTable(ids, stamps, n) <==> id in ids[..n]
    decreases n
  {
    if n > 0 {
      SeedTableKeys(ids, stamps, n - 1);
      assert ids[..n] == ids[..n - 1] + [ids[n - 1]];
    }
  }

  /** With pairwise different ids, `n` seeding iterations store exactly `n`
      subscriptions. */
  lemma {:induction false} SeedTableSize(ids: seq<string>, stamps: seq<int>, n: nat)
    requires n <= |ids| && n <= |stamps| && Distinct(ids)
    ensures |SeedTable(ids, stamps, n)| == n
    decreases n
  {
    if n > 0 {
      SeedTableSize(ids, stamps, n - 1);
      SeedTableKeys(ids, stamps, n - 1);
      assert ids[n - 1] !in ids[..n - 1];
    }
  }

  /** With pairwise different ids, the `k`-th seeded subscription is stored
      under `ids[k]` as `User {k+1}`. */
  lemma {:induction false} SeedTableValues(ids: seq<string>, stamps: seq<int>, n: nat)
    requires n <= |ids| && n <= |stamps| && Distinct(ids)
    ensures forall k :: 0 <= k < n ==>
              ids[k] in SeedTable(ids, stamps, n) &&
              SeedTable(ids, stamps, n)[ids[k]] == SeedSubscription(k, ids[k], stamps[k])
    decreases n
  {
    if n > 0 {
      SeedTableValues(ids, stamps, n - 1);
    }
  }

  /** The table a full seeding run leaves: every entry under its own id,
      and one entry per id when the ids are pairwise different. */
  lemma SeededTable(ids: seq<string>, stamps: seq<int>)
    requires |ids| == |stamps|
    ensures forall id :: id in SeedTable(ids, stamps, |ids|) ==> SeedTable(ids, stamps, |ids|)[id].id == id
    ensures Distinct(ids) ==> |SeedTable(ids, stamps, |ids|).Keys| == |ids|
  {
    SeedTableIds(ids, stamps, |ids|);
    if Distinct(ids) {
      SeedTableSize(ids, stamps, |ids|);
    }
  }

  // ---------------------------------------------------------------------
  // Looking a user up by name

  /** The position of the first user named `username`, or `|vs|`. */
  function FirstNamed(vs: seq<User>, username: string): (k: nat)
    ensures k <= |vs|
    ensures k < |vs| ==> vs[k].username == username
    ensures forall m :: 0 <= m < k ==> vs[m].username != username
    decreases |vs|
  {
    if vs == [] then 0
    else if vs[0].username == username then 0
    else 1 + FirstNamed(vs[1..], username)
  }

  /** `find` over the user values: the first one named `username`. */
  function Find(vs: seq<User>, username: string): (r: Option<User>)
    ensures r.None? <==> forall k :: 0 <= k < |vs| ==> vs[k].username != username
    ensures r.Some? ==> exists k :: 0 <= k < |vs| && vs[k] == r.value && r.value.username == username &&
                          forall m :: 0 <= m < k ==> vs[m].username != username
  {
    var k := FirstNamed(vs, username);
    if k < |vs| then Some(vs[k]) else None
  }

  lemma {:induction false} FirstNamedAfterAppend(vs: seq<User>, u: User, username: string)
    ensures FirstNamed(vs + [u], username) ==
      if FirstNamed(vs, username) < |vs| then FirstNamed(vs, username)
      else if u.username == username then |vs| else |vs| + 1
    decreases |vs|
  {
    if vs != [] {
      assert (vs + [u])[1..] == vs[1..] + [u];
      FirstNamedAfterAppend(vs[1..], u, username);
    }
  }

  /** Appending a user never changes an earlier match; it is found only
      when nobody earlier has its name. */
  lemma FindAfterAppend(vs: seq<User>, u: User, username: string)
    ensures Find(vs + [u], username) ==
      if Find(vs, username).Some? then Find(vs, username)
      else if u.username == username then Some(u) else None
  {
    FirstNamedAfterAppend(vs, u, username);
    var ws := vs + [u];
    assert ws[|vs|] == u;
    assert forall m :: 0 <= m < |vs| ==> ws[m] == vs[m];
  }

  /** The entries of `table` under the keys `order`, in that order. */
  function Lookups(order: seq<string>, table: map<string, User>): (vs: seq<User>)
    requires forall k :: 0 <= k < |order| ==> order[k] in table
  {
    seq(|order|, k requires 0 <= k < |order| && order[k] in table => table[order[k]])
  }

  // ---------------------------------------------------------------------
  // The store

  class MemStorage {
    var users: map<string, User>
    /** The keys of `users` in insertion order, which is the order a `Map`
        yields its values in. */
    var userOrder: seq<string>
    var subscriptions: map<string, Subscription>

    ghost predicate Valid()
      reads this
    {
      && (forall k :: 0 <= k < |userOrder| ==> userOrder[k] in users)
      && (forall id :: id in users ==> id in userOrder)
      && (forall a, b :: 0 <= a < b < |userOrder| ==> userOrder[a] != userOrder[b])
      && (forall id :: id in users ==> users[id].id == id)
      && (forall id :: id in subscriptions ==> subscriptions[id].id == id)
    }

    /** `Array.from(this.users.values())`. */
    function Values(): (vs: seq<User>)
      reads this
      requires Valid()
      ensures |vs| == |userOrder|
      ensures forall k :: 0 <= k < |userOrder| ==> vs[k] == users[userOrder[k]]
    {
      Lookups(userOrder, users)
    }

    /** A new store: no users, and the subscriptions table seeded with
        `User 1` .. `User 11950` under the supplied ids and timestamps. */
    constructor (ids: seq<string>, stamps: seq<int>)
      requires |ids| == BaseCount && |stamps| == BaseCount
      ensures Valid()
      ensures users == map[] && userOrder == []
      ensures subscriptions == SeedTable(ids, stamps, |ids|)
      ensures Distinct(ids) ==> GetSubscriptionCount() == BaseCount
    {
      users := map[];
      userOrder := [];
      subscriptions := map[];
      new;
      InitializeSubscriptions(ids, stamps);
    }

    /** `initializeSubscriptions`: set 11950 numbered subscriptions. */
    method InitializeSubscriptions(ids: seq<string>, stamps: seq<int>)
      requires |ids| == BaseCount && |stamps| == BaseCount
      requires users == map[] && userOrder == [] && subscriptions == map[]
      modifies this`subscriptions
      ensures Valid()
      ensures users == map[] && userOrder == []
      ensures subscriptions == SeedTable(ids, stamps, |ids|)
      ensures Distinct(ids) ==> GetSubscriptionCount() == BaseCount
    {
      for i := 0 to BaseCount
        invariant subscriptions == SeedTable(ids, stamps, i)
      {
        var id := ids[i];
        var subscription := Subscription(id, "User " + Decimal(i + 1),
                                         "user" + Decimal(i + 1) + "@example.com", stamps[i]);
        subscriptions := subscriptions[id := subscription];
      }
      SeededTable(ids, stamps);
    }

    /** `getUser`: the user stored under `id`, if any. */
    function GetUser(id: string): (r: Option<User>)
      reads this
      ensures r.Some? <==> id in users
      ensures r.Some? ==> r.value == users[id]
    {
      if id in users then Some(users[id]) else None
    }

    /** `getUserByUsername`: the earliest inserted user with that name. */
    function GetUserByUsername(username: string): (r: Option<User>)
      reads this
      requires Valid()
      ensures r == Find(Values(), username)
      ensures r.None? <==> forall id :: id in users ==> users[id].username != username
      ensures r.Some? ==> r.value.id in users && users[r.value.id] == r.value && r.value.username == username
    {
      var vs := Values();
      assert forall id :: id in users ==> users[id] in vs by {
        forall id | id in users ensures users[id] in vs {
          var k :| 0 <= k < |userOrder| && userOrder[k] == id;
          assert vs[k] == users[id];
        }
      }
      Find(vs, username)
    }

    /** `createUser`: store the fields plus the new id; a duplicate username
        is not rejected. */
    method CreateUser(insertUser: InsertUser, id: string) returns (user: User)
      requires Valid()
      modifies this
      ensures Valid()
      ensures user == User(id, insertUser.username, insertUser.password)
      ensures users == old(users)[id := user]
      ensures userOrder == if id in old(users) then old(userOrder) else old(userOrder) + [id]
      ensures subscriptions == old(subscriptions)
      ensures GetUser(id) == Some(user)
      ensures id !in old(users) ==> Values() == old(Values()) + [user]
    {
      user := User(id, insertUser.username, insertUser.password);
      if id !in users {
        userOrder := userOrder + [id];
      }
      users := users[id := user];
      if id !in old(users) {
        forall k | 0 <= k < |old(userOrder)| ensures userOrder[k] != id {
          assert old(userOrder)[k] in old(users);
        }
        assert Values() == old(Values()) + [user];
      }
    }

    /** `createSubscription`: store the fields plus the new id and the
        creation time. */
    method CreateSubscription(insertSubscription: InsertSubscription, id: string, now: int)
      returns (subscription: Subscription)
      requires Valid()
      modifies this
      ensures Valid()
      ensures subscription == Subscription(id, insertSubscription.name, insertSubscription.email, now)
      ensures subscriptions == old(subscriptions)[id := subscription]
      ensures id !in old(subscriptions) ==> GetSubscriptionCount() == old(GetSubscriptionCount()) + 1
      ensures users == old(users) && userOrder == old(userOrder)
    {
      subscription := Subscription(id, insertSubscription.name, insertSubscription.email, now);
      subscriptions := subscriptions[id := subscription];
    }

    /** `getSubscriptionCount`: the size of the subscriptions table. */
    function GetSubscriptionCount(): (n: nat)
      reads this
      ensures n == |subscriptions.Keys|
    {
      |subscriptions|
    }
  }

  /** Two users with the same name on a new store: both are stored, and
      lookup by name returns the one inserted first. */
  method DuplicateUsernames(ids: seq<string>, stamps: seq<int>, a: InsertUser, b: InsertUser,
                            idA: string, idB: string)
    returns (store: MemStorage)
    requires |ids| == BaseCount && |stamps| == BaseCount
    requires idA != idB && a.username == b.username
    ensures store.Valid()
    ensures store.GetUser(idA) == Some(User(idA, a.username, a.password))
    ensures store.GetUser(idB) == Some(User(idB, b.username, b.password))
    ensures store.GetUserByUsername(a.username) == Some(User(idA, a.username, a.password))
  {
    store := new MemStorage(ids, stamps);
    var first := store.CreateUser(a, idA);
    assert store.Values() == [first];
    var second := store.CreateUser(b, idB);
    FindAfterAppend([first], second, a.username);
  }
}
