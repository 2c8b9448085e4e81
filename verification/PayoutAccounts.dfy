/** Migration 0118: payout-account uniqueness, per owner and back to
    platform-wide.  A table is a map from row id to row. */
module PayoutAccounts {
  import opened Wrappers
  import opened Text

  // ---- Row ids and their placeholders -----------------------------------------

  function Pow16(k: nat): (p: nat)
    ensures 1 <= p
  {
    if k == 0 then 1 else 16 * Pow16(k - 1)
  }

  /** A UUID as the 128-bit number Postgres orders it by. */
  type Uuid = id: nat | id < Pow16(32) witness 0

  function HexDigit(d: nat): char
    requires d < 16
  {
    if d < 10 then '0' + d as char else 'a' + (d - 10) as char
  }

  function HexDigits(n: nat, k: nat): (s: string)
    ensures |s| == k && forall c :: c in s ==> IsHexDigit(c)
  {
    if k == 0 then "" else HexDigits(n / 16, k - 1) + [HexDigit(n % 16)]
  }

  /** `id::text`: 32 digits in groups of 8, 4, 4, 4 and 12. */
  function UuidText(id: Uuid): string {
    var h := HexDigits(id, 32);
    h[..8] + "-" + h[8..12] + "-" + h[12..16] + "-" + h[16..20] + "-" + h[20..]
  }

  /** `replace(s, '-', '')`. */
  function WithoutDashes(s: string): string {
    if s == "" then ""
    else (if s[0] == '-' then "" else [s[0]]) + WithoutDashes(s[1..])
  }

  const SUPERSEDED := "superseded-"

  function Placeholder(id: Uuid): string {
    SUPERSEDED + WithoutDashes(UuidText(id))
  }

  lemma {:induction false} HexDigitsInjective(m: nat, n: nat, k: nat)
    requires m < Pow16(k) && n < Pow16(k) && HexDigits(m, k) == HexDigits(n, k)
    ensures m == n
  {
    if k > 0 {
      var a, b := HexDigits(m, k), HexDigits(n, k);
      assert a[k - 1] == HexDigit(m % 16) && b[k - 1] == HexDigit(n % 16);
      assert a[..k - 1] == HexDigits(m / 16, k - 1) && b[..k - 1] == HexDigits(n / 16, k - 1);
      HexDigitsInjective(m / 16, n / 16, k - 1);
    }
  }

  lemma {:induction false} WithoutDashesConcat(a: string, b: string)
    ensures WithoutDashes(a + b) == WithoutDashes(a) + WithoutDashes(b)
  {
    if a == "" {
      assert a + b == b;
    } else {
      assert (a + b)[1..] == a[1..] + b;
      WithoutDashesConcat(a[1..], b);
    }
  }

  lemma {:induction false} NoDashesToRemove(a: string)
    requires '-' !in a
    ensures WithoutDashes(a) == a
  {
    if a != "" {
      NoDashesToRemove(a[1..]);
    }
  }

  lemma OnlyADash()
    ensures WithoutDashes("-") == ""
  {
  }

  lemma DashThenGroup(prefix: string, group: string)
    requires '-' !in group
    ensures WithoutDashes(prefix + "-" + group) == WithoutDashes(prefix) + group
  {
    WithoutDashesConcat(prefix + "-", group);
    WithoutDashesConcat(prefix, "-");
    OnlyADash();
    NoDashesToRemove(group);
  }

  lemma FiveGroups(a: string, b: string, c: string, d: string, e: string)
    requires '-' !in a && '-' !in b && '-' !in c && '-' !in d && '-' !in e
    ensures WithoutDashes(a + "-" + b + "-" + c + "-" + d + "-" + e) == a + b + c + d + e
  {
    NoDashesToRemove(a);
    DashThenGroup(a, b);
    DashThenGroup(a + "-" + b, c);
    DashThenGroup(a + "-" + b + "-" + c, d);
    DashThenGroup(a + "-" + b + "-" + c + "-" + d, e);
  }

  lemma SlicesRejoin(h: string)
    requires |h| == 32
    ensures h[..8] + h[8..12] + h[12..16] + h[16..20] + h[20..] == h
  {
  }

  lemma UuidTextWithoutDashes(id: Uuid)
    ensures WithoutDashes(UuidText(id)) == HexDigits(id, 32)
  {
    var h := HexDigits(id, 32);
    assert '-' !in h;
    FiveGroups(h[..8], h[8..12], h[12..16], h[16..20], h[20..]);
    SlicesRejoin(h);
  }

  /** Placeholders tell rows apart, fit the column, and are never a hex digest. */
  lemma PlaceholdersAreInjective(a: Uuid, b: Uuid)
    ensures Placeholder(a) == Placeholder(b) ==> a == b
    ensures |Placeholder(a)| == 43 && !IsDigest(Placeholder(a))
    ensures "superseded-" <= Placeholder(a) && forall c :: c in Placeholder(a)[11..] ==> IsHexDigit(c)
  {
    UuidTextWithoutDashes(a);
    UuidTextWithoutDashes(b);
    assert Placeholder(a)[0] == 's';
    if Placeholder(a) == Placeholder(b) {
      assert HexDigits(a, 32) == Placeholder(a)[11..] == Placeholder(b)[11..] == HexDigits(b, 32);
      HexDigitsInjective(a, b, 32);
    }
  }

  // ---- The table --------------------------------------------------------------

  datatype Owner = User(id: Uuid) | Org(id: Uuid)

  datatype Account = Account(
    provider: string, lookupHash: string, owner: Owner,
    createdAt: int, deletedAt: Option<int>, isDefault: bool)

  type Table = map<Uuid, Account>

  predicate Live(a: Account) { a.deletedAt.None? }

  /** A SHA-256 HMAC as `hexdigest()` prints it. */
  predicate IsDigest(hash: string) {
    |hash| == 64 && forall c :: c in hash ==> IsHexDigit(c)
  }

  /** Sixty-four hexadecimal digits, whatever they are, and nothing shorter or longer. */
  lemma DigestsAreHex(n: nat, k: nat)
    ensures IsDigest(HexDigits(n, k)) <==> k == 64
  {
  }

  /** Hashes the program writes are digests; the only others are placeholders
      that an earlier downgrade gave to their own row. */
  ghost predicate WellFormed(t: Table) {
    forall id :: id in t ==> IsDigest(t[id].lookupHash) || t[id].lookupHash == Placeholder(id)
  }

  predicate SamePair(a: Account, b: Account) {
    a.provider == b.provider && a.lookupHash == b.lookupHash
  }

  ghost predicate Collide(t: Table, i: Uuid, j: Uuid) {
    i in t && j in t && i != j && SamePair(t[i], t[j])
  }

  /** UNIQUE (provider, provider_account_lookup_hash), soft-deleted rows included. */
  ghost predicate UniqueOverall(t: Table) {
    forall i, j :: !Collide(t, i, j)
  }

  /** The two partial unique indexes: per owner, among live rows. */
  ghost predicate UniquePerOwner(t: Table) {
    forall i, j :: i in t && j in t && Live(t[i]) && Live(t[j]) && t[i].owner == t[j].owner && SamePair(t[i], t[j])
      ==> i == j
  }

  // ---- Ranking -----------------------------------------------------------------

  /** ORDER BY (deleted_at IS NOT NULL), created_at, id. */
  predicate Before(t: Table, i: Uuid, j: Uuid)
    requires i in t && j in t
  {
    if Live(t[i]) != Live(t[j]) then Live(t[i])
    else if t[i].createdAt != t[j].createdAt then t[i].createdAt < t[j].createdAt
    else i < j
  }

  function Ahead(t: Table, id: Uuid): set<Uuid>
    requires id in t
  {
    set i | i in t && SamePair(t[i], t[id]) && Before(t, i, id)
  }

  /** row_number() over the row's (provider, hash) partition. */
  function Position(t: Table, id: Uuid): nat
    requires id in t
  {
    1 + |Ahead(t, id)|
  }

  function Retire(id: Uuid, a: Account, now: int): Account {
    a.(lookupHash := Placeholder(id),
       deletedAt := if a.deletedAt.None? then Some(now) else a.deletedAt,
       isDefault := false)
  }

  function Retired(t: Table, now: int): Table {
    map id | id in t :: if Position(t, id) > 1 then Retire(id, t[id], now) else t[id]
  }

  lemma RetiredAt(t: Table, now: int, id: Uuid)
    requires id in t
    ensures Retired(t, now)[id] == if Position(t, id) > 1 then Retire(id, t[id], now) else t[id]
  {
  }

  // ---- The database ----------------------------------------------------------------

  ghost predicate Distinct<K>(entries: map<Uuid, K>) {
    forall i, j :: i in entries && j in entries && entries[i] == entries[j] ==> i == j
  }

  /** Building a unique index: rows are entered one by one, until a key turns up
      that is there already. */
  method BuildUniqueIndex<K(==)>(entries: map<Uuid, K>) returns (ok: bool)
    ensures ok <==> Distinct(entries)
  {
    var pending := entries.Keys;
    var index: set<K> := {};
    while pending != {}
      invariant pending <= entries.Keys
      invariant forall k :: k in index <==> exists i :: i in entries && i !in pending && entries[i] == k
      invariant forall i, j | i in entries && j in entries && i !in pending && j !in pending ::
                  entries[i] == entries[j] ==> i == j
      decreases pending
    {
      var id :| id in pending;
      if entries[id] in index {
        return false;
      }
      index := index + {entries[id]};
      pending := pending - {id};
    }
    return true;
  }

  function PairEntries(t: Table): map<Uuid, (string, string)> {
    map id | id in t :: (t[id].provider, t[id].lookupHash)
  }

  /** The entries of the partial index over the live rows of users, or of
      organizations. */
  function OwnerEntries(t: Table, users: bool): map<Uuid, (string, string, Owner)> {
    map id | id in t && t[id].owner.User? == users && Live(t[id]) :: (t[id].provider, t[id].lookupHash, t[id].owner)
  }

  lemma PairIndexMeaning(t: Table)
    ensures Distinct(PairEntries(t)) <==> UniqueOverall(t)
  {
    var e := PairEntries(t);
    if !Distinct(e) {
      var i, j :| i in e && j in e && e[i] == e[j] && i != j;
      assert Collide(t, i, j);
    }
    if i, j :| Collide(t, i, j) {
      assert e[i] == e[j];
    }
  }

  lemma OverallImpliesPerOwner(t: Table)
    ensures UniqueOverall(t) ==> UniquePerOwner(t)
  {
    if !UniquePerOwner(t) {
      var i, j :| i in t && j in t && t[i].owner == t[j].owner && SamePair(t[i], t[j]) && i != j;
      assert Collide(t, i, j);
    }
  }

  lemma OwnerIndexMeaning(t: Table)
    ensures Distinct(OwnerEntries(t, true)) && Distinct(OwnerEntries(t, false)) <==> UniquePerOwner(t)
  {
    var u, o := OwnerEntries(t, true), OwnerEntries(t, false);
    if Distinct(u) && Distinct(o) {
      forall i, j | i in t && j in t && Live(t[i]) && Live(t[j]) && t[i].owner == t[j].owner && SamePair(t[i], t[j])
        ensures i == j
      {
        if t[i].owner.User? {
          assert u[i] == u[j];
        } else {
          assert o[i] == o[j];
        }
      }
    }
  }

  /** Every row is as in `goal`, except that those still pending are as before. */
  ghost predicate UpdatedBut(rows: Table, goal: Table, updated: Table, pending: set<Uuid>) {
    && pending <= rows.Keys == updated.Keys == goal.Keys
    && forall id :: id in rows ==> updated[id] == if id in pending then rows[id] else goal[id]
  }

  lemma UpdateOneMore(rows: Table, goal: Table, updated: Table, pending: set<Uuid>, id: Uuid)
    requires UpdatedBut(rows, goal, updated, pending) && id in pending
    ensures UpdatedBut(rows, goal, updated[id := goal[id]], pending - {id})
  {
  }

  lemma UpdateComplete(rows: Table, goal: Table, updated: Table)
    requires UpdatedBut(rows, goal, updated, {})
    ensures updated == goal
  {
  }

  /** The UPDATE, row by row: the ranking is that of the table as it was. */
  method RetireDuplicates(rows: Table, now: int) returns (updated: Table)
    ensures updated == Retired(rows, now)
  {
    ghost var goal := Retired(rows, now);
    var pending := rows.Keys;
    updated := rows;
    while pending != {}
      invariant UpdatedBut(rows, goal, updated, pending)
      decreases pending
    {
      var id :| id in pending;
      RetiredAt(rows, now, id);
      UpdateOneMore(rows, goal, updated, pending, id);
      updated := updated[id := if Position(rows, id) > 1 then Retire(id, rows[id], now) else rows[id]];
      pending := pending - {id};
    }
    UpdateComplete(rows, goal, updated);
  }

  lemma UntouchedKeepsRows(t: Table, now: int)
    ensures KeepsRows(t, t, now)
  {
  }

  lemma WellFormedSucceeds(t: Table, now: int)
    requires WellFormed(t)
    ensures UniqueOverall(Retired(t, now)) && WellFormed(Retired(t, now)) && EachPairHeld(t, Retired(t, now))
  {
    DowngradeRestoresUniqueness(t, now);
    PairsAreHeld(t, now);
  }

  class Database {
    var payoutAccounts: Table

    constructor (rows: Table)
      ensures payoutAccounts == rows
    {
      payoutAccounts := rows;
    }

    /** No row changes.  Both index creations scan the live rows, those of users
        and those of organizations. */
    method Upgrade() returns (ok: bool)
      ensures ok <==> UniquePerOwner(payoutAccounts)
      ensures UniqueOverall(payoutAccounts) ==> ok
    {
      var users := BuildUniqueIndex(OwnerEntries(payoutAccounts, true));
      var orgs := BuildUniqueIndex(OwnerEntries(payoutAccounts, false));
      ok := users && orgs;
      OwnerIndexMeaning(payoutAccounts);
      OverallImpliesPerOwner(payoutAccounts);
    }

    method AddConstraint() returns (ok: bool)
      ensures ok <==> UniqueOverall(payoutAccounts)
    {
      ok := BuildUniqueIndex(PairEntries(payoutAccounts));
      PairIndexMeaning(payoutAccounts);
    }

    /** One transaction: when the constraint cannot be added, nothing happened.
        That is when a row keeping its pair holds a retired row's placeholder,
        which the program's own hashes rule out.  Otherwise every pair ends with
        one holder, every other row retired, and none lost. */
    method Downgrade(now: int) returns (ok: bool)
      modifies this
      ensures ok <==> forall i, j :: !HoldsPlaceholderOf(old(payoutAccounts), i, j)
      ensures !ok ==> payoutAccounts == old(payoutAccounts)
      ensures KeepsRows(old(payoutAccounts), payoutAccounts, now)
      ensures ok ==> UniqueOverall(payoutAccounts) && payoutAccounts == Retired(old(payoutAccounts), now)
      ensures WellFormed(old(payoutAccounts)) ==>
                ok && WellFormed(payoutAccounts) && EachPairHeld(old(payoutAccounts), payoutAccounts)
    {
      ghost var before := payoutAccounts;
      var saved := payoutAccounts;
      payoutAccounts := RetireDuplicates(payoutAccounts, now);
      ok := AddConstraint();
      if !ok {
        payoutAccounts := saved;
      }
      DowngradeSucceedsIff(before, now);
      UntouchedKeepsRows(before, now);
      NoRowIsLost(before, now);
      if WellFormed(before) {
        WellFormedSucceeds(before, now);
      }
    }
  }

  // ---- The holder of a pair ------------------------------------------------------

  predicate Keeps(t: Table, id: Uuid)
    requires id in t
  {
    Position(t, id) == 1
  }

  /** Position 1 means nobody of the partition comes first. */
  lemma KeepsIsFirst(t: Table, id: Uuid)
    requires id in t
    ensures Keeps(t, id) <==> forall i :: i in t && SamePair(t[i], t[id]) && i != id ==> Before(t, id, i)
  {
    if Keeps(t, id) {
      assert Ahead(t, id) == {};
      forall i | i in t && SamePair(t[i], t[id]) && i != id ensures Before(t, id, i) {
        assert i !in Ahead(t, id);
      }
    } else {
      assert Ahead(t, id) != {};
      var i :| i in Ahead(t, id);
      assert !Before(t, id, i);
    }
  }

  /** Every partition has a first row. */
  lemma {:induction false} FirstOfPartition(t: Table, id: Uuid) returns (first: Uuid)
    requires id in t
    ensures first in t && SamePair(t[first], t[id]) && Keeps(t, first)
    decreases Ahead(t, id)
  {
    if Ahead(t, id) == {} {
      first := id;
    } else {
      var i :| i in Ahead(t, id);
      assert Ahead(t, i) <= Ahead(t, id) && i !in Ahead(t, i);
      first := FirstOfPartition(t, i);
    }
  }

  /** Of the rows with the (provider, hash) pair of row `id` in t, u leaves it to
      one holder alone, unchanged: the oldest live one whenever one existed, and
      otherwise the oldest.  Every other is soft-deleted and not default. */
  ghost predicate HeldBy(t: Table, u: Table, id: Uuid, holder: Uuid) {
    && t.Keys == u.Keys && id in t && holder in t && SamePair(t[holder], t[id]) && u[holder] == t[holder]
    && (forall i :: i in t && SamePair(u[i], t[id]) ==> i == holder)
    && (forall i :: i in t && SamePair(t[i], t[id]) && i != holder ==>
          && u[i].deletedAt.Some? && !u[i].isDefault
          && (t[i].deletedAt.None? ==> t[holder].deletedAt.None?)
          && ((t[i].deletedAt.None? <==> t[holder].deletedAt.None?) ==>
                t[holder].createdAt < t[i].createdAt || (t[holder].createdAt == t[i].createdAt && holder < i)))
  }

  ghost predicate EachPairHeld(t: Table, u: Table) {
    forall id :: id in t ==> exists holder :: HeldBy(t, u, id, holder)
  }

  lemma PairsAreHeld(t: Table, now: int)
    requires WellFormed(t)
    ensures EachPairHeld(t, Retired(t, now))
  {
    forall id | id in t ensures exists holder :: HeldBy(t, Retired(t, now), id, holder) {
      var holder := OneHolderPerPair(t, now, id);
    }
  }

  lemma OneHolderPerPair(t: Table, now: int, id: Uuid) returns (holder: Uuid)
    requires WellFormed(t) && id in t
    ensures HeldBy(t, Retired(t, now), id, holder)
  {
    holder := FirstOfPartition(t, id);
    forall i | i in t && i != holder
      ensures !SamePair(Retired(t, now)[i], t[id])
      ensures SamePair(t[i], t[id]) ==> Before(t, holder, i)
      ensures SamePair(t[i], t[id]) ==> Retired(t, now)[i].deletedAt.Some? && !Retired(t, now)[i].isDefault
    {
      OthersLoseThePair(t, now, id, holder, i);
    }
  }

  lemma OthersLoseThePair(t: Table, now: int, id: Uuid, holder: Uuid, i: Uuid)
    requires WellFormed(t) && id in t && holder in t && i in t && i != holder
    requires SamePair(t[holder], t[id]) && Keeps(t, holder)
    ensures !SamePair(Retired(t, now)[i], t[id])
    ensures SamePair(t[i], t[id]) ==> Before(t, holder, i)
    ensures SamePair(t[i], t[id]) ==> Retired(t, now)[i].deletedAt.Some? && !Retired(t, now)[i].isDefault
  {
    KeepsIsFirst(t, holder);
    KeepsIsFirst(t, i);
    if !Keeps(t, i) {
      RetiredHashIsFresh(t, now, i, id);
    }
  }

  /** A placeholder just handed out is no hash of any row's that was there before,
      except possibly the row's own. */
  lemma RetiredHashIsFresh(t: Table, now: int, i: Uuid, j: Uuid)
    requires WellFormed(t) && i in t && j in t && !Keeps(t, i)
    ensures Retired(t, now)[i].lookupHash != t[j].lookupHash
  {
    PlaceholdersAreInjective(i, j);
    if t[i].lookupHash == Placeholder(i) {
      var k :| k in Ahead(t, i);
      PlaceholdersAreInjective(i, k);
    } else if j == i {
    } else {
      PlaceholdersAreInjective(j, i);
    }
  }

  /** No row is lost: whatever happens to a row, it keeps its provider, owner and
      creation time, and either it is as before or it is not default, carries its own
      placeholder, and is deleted as of then or, if it was live, of now. */
  ghost predicate KeepsRows(t: Table, u: Table, now: int) {
    && u.Keys == t.Keys
    && forall id :: id in t ==> KeepsRow(id, t[id], u[id], now)
  }

  ghost predicate KeepsRow(id: Uuid, a: Account, b: Account, now: int) {
    && b.provider == a.provider && b.owner == a.owner && b.createdAt == a.createdAt
    && (b != a ==> !b.isDefault && b.lookupHash == Placeholder(id))
    && (a.deletedAt.Some? ==> b.deletedAt == a.deletedAt)
    && (a.deletedAt.None? && b != a ==> b.deletedAt == Some(now))
  }

  lemma NoRowIsLost(t: Table, now: int)
    ensures KeepsRows(t, Retired(t, now), now)
  {
    forall id | id in t ensures KeepsRow(id, t[id], Retired(t, now)[id], now) {
      RetiredAt(t, now, id);
      RetireKeepsRow(id, t[id], now);
    }
  }

  lemma RetireKeepsRow(id: Uuid, a: Account, now: int)
    ensures KeepsRow(id, a, Retire(id, a, now), now)
  {
  }

  /** Row i keeps its pair and already carries the placeholder of row j, of the
      same provider, which is being retired. */
  ghost predicate HoldsPlaceholderOf(t: Table, i: Uuid, j: Uuid) {
    && i in t && j in t && Keeps(t, i) && !Keeps(t, j)
    && t[i].provider == t[j].provider && t[i].lookupHash == Placeholder(j)
  }

  lemma KeepersApart(t: Table, i: Uuid, j: Uuid)
    requires i in t && j in t && Keeps(t, i) && Keeps(t, j) && SamePair(t[i], t[j])
    ensures i == j
  {
    KeepsIsFirst(t, i);
    KeepsIsFirst(t, j);
  }

  /** Two rows can share a pair after the UPDATE only if one keeps its pair and
      the other was retired onto that very hash. */
  lemma CollisionNeedsKeeper(t: Table, now: int, i: Uuid, j: Uuid)
    requires Collide(Retired(t, now), i, j)
    ensures HoldsPlaceholderOf(t, i, j) || HoldsPlaceholderOf(t, j, i)
  {
    if Keeps(t, i) && Keeps(t, j) {
      KeepersApart(t, i, j);
    } else if !Keeps(t, i) && !Keeps(t, j) {
      PlaceholdersAreInjective(i, j);
    }
  }

  /** The restored constraint always applies: the downgrade never fails. */
  lemma DowngradeRestoresUniqueness(t: Table, now: int)
    requires WellFormed(t)
    ensures UniqueOverall(Retired(t, now)) && WellFormed(Retired(t, now))
  {
    var r := Retired(t, now);
    forall i, j | i in r && j in r && SamePair(r[i], r[j]) ensures i == j {
      if i != j {
        CollisionNeedsKeeper(t, now, i, j);
        PlaceholdersAreInjective(i, j);
        PlaceholdersAreInjective(j, i);
      }
    }
  }

  lemma HoldingCollides(t: Table, now: int, i: Uuid, j: Uuid)
    requires HoldsPlaceholderOf(t, i, j)
    ensures Collide(Retired(t, now), i, j)
  {
  }

  lemma CollisionsComeFromHolders(t: Table, now: int, i: Uuid, j: Uuid)
    ensures Collide(Retired(t, now), i, j) ==> HoldsPlaceholderOf(t, i, j) || HoldsPlaceholderOf(t, j, i)
    ensures HoldsPlaceholderOf(t, i, j) ==> Collide(Retired(t, now), i, j)
  {
    if Collide(Retired(t, now), i, j) {
      CollisionNeedsKeeper(t, now, i, j);
    }
    if HoldsPlaceholderOf(t, i, j) {
      HoldingCollides(t, now, i, j);
    }
  }

  /** On any table at all, ill-formed hashes included, the constraint applies if
      and only if no row that keeps its pair holds the placeholder of a row
      being retired. */
  lemma DowngradeSucceedsIff(t: Table, now: int)
    ensures UniqueOverall(Retired(t, now)) <==> forall i, j :: !HoldsPlaceholderOf(t, i, j)
  {
    forall i, j
      ensures Collide(Retired(t, now), i, j) ==> HoldsPlaceholderOf(t, i, j) || HoldsPlaceholderOf(t, j, i)
      ensures HoldsPlaceholderOf(t, i, j) ==> Collide(Retired(t, now), i, j)
    {
      CollisionsComeFromHolders(t, now, i, j);
    }
  }

  /** A second downgrade finds nothing to retire: repeated up and down runs with
      nothing registered in between change no row. */
  lemma DowngradeTwiceIsOnce(t: Table, now: int, later: int)
    requires WellFormed(t)
    ensures Retired(Retired(t, now), later) == Retired(t, now)
  {
    var r := Retired(t, now);
    DowngradeRestoresUniqueness(t, now);
    forall id | id in r ensures Position(r, id) == 1 {
      forall i | i in r && SamePair(r[i], r[id]) ensures i == id {
        assert !Collide(r, i, id);
      }
      assert Ahead(r, id) == {};
    }
    AllKept(r, later);
  }

  lemma AllKept(t: Table, now: int)
    requires forall id :: id in t ==> Position(t, id) == 1
    ensures Retired(t, now) == t
  {
  }

  // ---- Repeated runs ---------------------------------------------------------------

  /** What happens to the table over time: up and down migrations, and in between
      registrations, which write digests and reuse no id, deletions, and account
      erasure, which puts the digest of a tombstone in place of the hash. */
  datatype Event =
    | Up
    | Down(now: int)
    | Register(id: Uuid, account: Account)
    | SoftDelete(id: Uuid, now: int)
    | Erase(id: Uuid, digest: string, now: int)

  predicate Allowed(t: Table, e: Event) {
    match e
    case Up => true
    case Down(_) => true
    case Register(id, account) => id !in t && IsDigest(account.lookupHash)
    case SoftDelete(id, _) => id in t && Live(t[id])
    case Erase(id, digest, _) => id in t && IsDigest(digest)
  }

  function Apply(t: Table, e: Event): Table
    requires Allowed(t, e)
  {
    match e
    case Up => t
    case Down(now) => Retired(t, now)
    case Register(id, account) => t[id := account]
    case SoftDelete(id, now) => t[id := t[id].(deletedAt := Some(now), isDefault := false)]
    case Erase(id, digest, now) => t[id := t[id].(lookupHash := digest, deletedAt := Some(now), isDefault := false)]
  }

  /** A deleted account is nobody's default. */
  ghost predicate DefaultsAreLive(t: Table) {
    forall id :: id in t && t[id].isDefault ==> t[id].deletedAt.None?
  }

  /** Accounts are registered live. */
  ghost predicate RegistersLive(events: seq<Event>) {
    forall i :: 0 <= i < |events| && events[i].Register? ==> events[i].account.deletedAt.None?
  }

  lemma EventKeepsDefaultsLive(t: Table, e: Event)
    requires DefaultsAreLive(t) && Allowed(t, e) && RegistersLive([e])
    ensures DefaultsAreLive(Apply(t, e))
  {
    assert [e][0] == e;
    if e.Down? {
      NoRowIsLost(t, e.now);
      forall id | id in t && Retired(t, e.now)[id].isDefault ensures Retired(t, e.now)[id].deletedAt.None? {
        assert KeepsRow(id, t[id], Retired(t, e.now)[id], e.now);
      }
    }
  }

  lemma EventKeepsRows(t: Table, e: Event)
    requires WellFormed(t) && Allowed(t, e)
    ensures WellFormed(Apply(t, e)) && t.Keys <= Apply(t, e).Keys
  {
    if e.Down? {
      DowngradeRestoresUniqueness(t, e.now);
    }
  }

  predicate History(t: Table, events: seq<Event>, last: Table)
    decreases |events|
  {
    if |events| == 0 then t == last
    else Allowed(t, events[0]) && History(Apply(t, events[0]), events[1..], last)
  }

  /** However often the migration runs up and down, with any registrations,
      deletions and erasures in between, the next downgrade restores the constraint,
      no row has disappeared, and no deleted account is a default if none was and
      accounts are registered live. */
  lemma {:induction false} EveryDowngradeSucceeds(t: Table, events: seq<Event>, last: Table, now: int)
    requires WellFormed(t) && History(t, events, last)
    ensures WellFormed(last) && t.Keys <= last.Keys && UniqueOverall(Retired(last, now))
    ensures DefaultsAreLive(t) && RegistersLive(events) ==> DefaultsAreLive(last) && DefaultsAreLive(Retired(last, now))
    decreases |events|
  {
    if |events| == 0 {
      DowngradeRestoresUniqueness(last, now);
      if DefaultsAreLive(t) {
        EventKeepsDefaultsLive(t, Down(now));
      }
    } else {
      if DefaultsAreLive(t) && RegistersLive(events) {
        EventKeepsDefaultsLive(t, events[0]);
      }
      EventKeepsRows(t, events[0]);
      EveryDowngradeSucceeds(Apply(t, events[0]), events[1..], last, now);
    }
  }
}
