/** The in-memory account registry: account records, the id counter, and the
    create / list / get / delete operations that act on them. */
module Accounts {

  /** The two allowed account types. */
  datatype AccountType = Business | Personal

  /** The body of a create request: everything of an account but its id. */
  datatype AccountCreate = AccountCreate(kind: AccountType, personName: string, address: string)

  /** A stored account: the create request plus the id the registry assigned. */
  datatype Account = Account(id: int, kind: AccountType, personName: string, address: string)

  /** The outcome of a lookup or a delete: a value, or the "Account not found" failure. */
  datatype Result<T> = Ok(value: T) | NotFound

  /** Ids are positive, below the counter, and strictly increasing in list order. */
  ghost predicate IdsOrdered(s: seq<Account>, nextId: int)
  {
    (forall j :: 0 <= j < |s| ==> 1 <= s[j].id < nextId) &&
    (forall j, k :: 0 <= j < k < |s| ==> s[j].id < s[k].id)
  }

  /** The position of the first account in `s` whose id is `id`, if any. */
  function FindIndex(s: seq<Account>, id: int): (r: Option)
    ensures r.Some? ==> r.index < |s| && s[r.index].id == id
    ensures r.Some? ==> forall j :: 0 <= j < r.index ==> s[j].id != id
    ensures r.None? <==> forall j :: 0 <= j < |s| ==> s[j].id != id
  {
    if |s| == 0 then None
    else if s[0].id == id then Some(0)
    else match FindIndex(s[1..], id)
      case None => None
      case Some(i) => Some(i + 1)
  }

  /** Either a position in the list or none. */
  datatype Option = None | Some(index: nat)

  /** What a lookup of `id` in `s` yields: the first account with that id, or NotFound. */
  function Lookup(s: seq<Account>, id: int): (r: Result<Account>)
    ensures r.Ok? ==> r.value in s && r.value.id == id
    ensures r.NotFound? <==> forall j :: 0 <= j < |s| ==> s[j].id != id
  {
    match FindIndex(s, id)
    case None => NotFound
    case Some(i) => Ok(s[i])
  }

  /** `s` with the first account whose id is `id` taken out; `s` itself if there is none. */
  function Remove(s: seq<Account>, id: int): (r: seq<Account>)
    ensures FindIndex(s, id).None? ==> r == s
    ensures FindIndex(s, id).Some? ==>
      var i := FindIndex(s, id).index;
      |r| == |s| - 1 &&
      (forall j :: 0 <= j < i ==> r[j] == s[j]) &&
      (forall j :: i <= j < |r| ==> r[j] == s[j + 1])
  {
    match FindIndex(s, id)
    case None => s
    case Some(i) => s[..i] + s[i + 1..]
  }

  /** Strictly increasing ids are pairwise distinct, so an id names at most one account. */
  lemma OrderedIdsAreDistinct(s: seq<Account>, nextId: int, j: int, k: int)
    requires IdsOrdered(s, nextId)
    requires 0 <= j < |s| && 0 <= k < |s| && j != k
    ensures s[j].id != s[k].id
  {
    if j < k { assert s[j].id < s[k].id; } else { assert s[k].id < s[j].id; }
  }

  /** Appending an account stamped with the counter keeps the ids ordered under the bumped counter. */
  lemma AppendKeepsOrdered(s: seq<Account>, nextId: int, a: Account)
    requires IdsOrdered(s, nextId) && 1 <= nextId && a.id == nextId
    ensures IdsOrdered(s + [a], nextId + 1)
  {
    var t := s + [a];
    forall j, k | 0 <= j < k < |t| ensures t[j].id < t[k].id {
      if k < |s| { assert t[j] == s[j] && t[k] == s[k]; }
      else { assert t[j] == s[j] && t[k] == a; }
    }
  }

  /** Removing an account keeps the ids ordered under the same counter. */
  lemma RemoveKeepsOrdered(s: seq<Account>, nextId: int, id: int)
    requires IdsOrdered(s, nextId)
    ensures IdsOrdered(Remove(s, id), nextId)
  {
    var r := Remove(s, id);
    if FindIndex(s, id).Some? {
      var i := FindIndex(s, id).index;
      forall j | 0 <= j < |r| ensures 1 <= r[j].id < nextId {
        if j < i { assert r[j] == s[j]; } else { assert r[j] == s[j + 1]; }
      }
      forall j, k | 0 <= j < k < |r| ensures r[j].id < r[k].id {
        var j' := if j < i then j else j + 1;
        var k' := if k < i then k else k + 1;
        assert r[j] == s[j'] && r[k] == s[k'] && j' < k';
      }
    }
  }

  /** Once the first account with `id` is removed, no account with that id is left, given distinct ids. */
  lemma {:induction false} LookupAfterRemove(s: seq<Account>, nextId: int, id: int)
    requires IdsOrdered(s, nextId)
    ensures Lookup(Remove(s, id), id) == NotFound
  {
    var r := Remove(s, id);
    if FindIndex(s, id).Some? {
      var i := FindIndex(s, id).index;
      forall j | 0 <= j < |r| ensures r[j].id != id {
        if j < i {
          assert r[j] == s[j];
        } else {
          assert r[j] == s[j + 1];
          OrderedIdsAreDistinct(s, nextId, i, j + 1);
        }
      }
    }
  }

  /** A lookup on a non-empty list either stops at its head or is a lookup on its tail. */
  lemma LookupCons(x: Account, t: seq<Account>, id: int)
    ensures Lookup([x] + t, id) == if x.id == id then Ok(x) else Lookup(t, id)
  {
    assert ([x] + t)[1..] == t;
  }

  /** Removing from a non-empty list either drops its head or keeps the head and removes from the tail. */
  lemma RemoveCons(x: Account, t: seq<Account>, id: int)
    ensures Remove([x] + t, id) == if x.id == id then t else [x] + Remove(t, id)
  {
    assert ([x] + t)[1..] == t;
    if x.id != id && FindIndex(t, id).Some? {
      var i := FindIndex(t, id).index;
      assert ([x] + t)[..i + 1] == [x] + t[..i];
      assert ([x] + t)[i + 2..] == t[i + 1..];
    }
  }

  /** Removing one id does not change what a lookup of any other id yields. */
  lemma {:induction false} LookupOtherAfterRemove(s: seq<Account>, id: int, other: int)
    requires other != id
    ensures Lookup(Remove(s, id), other) == Lookup(s, other)
  {
    if |s| > 0 {
      var x, t := s[0], s[1..];
      assert s == [x] + t;
      LookupCons(x, t, other);
      RemoveCons(x, t, id);
      if x.id != id {
        LookupOtherAfterRemove(t, id, other);
        LookupCons(x, Remove(t, id), other);
      }
    }
  }

  /** The account just appended with the counter as its id is what a lookup of that id finds. */
  lemma LookupAfterAppend(s: seq<Account>, nextId: int, a: Account)
    requires IdsOrdered(s, nextId) && a.id == nextId
    ensures Lookup(s + [a], a.id) == Ok(a)
  {
    var t := s + [a];
    forall j | 0 <= j < |s| ensures t[j].id != a.id { assert t[j] == s[j]; }
    assert t[|s|] == a;
  }

  /** Appending an account does not change what a lookup of any other id yields. */
  lemma {:induction false} LookupOtherAfterAppend(s: seq<Account>, a: Account, other: int)
    requires other != a.id
    ensures Lookup(s + [a], other) == Lookup(s, other)
  {
    if |s| > 0 {
      LookupOtherAfterAppend(s[1..], a, other);
      assert (s + [a])[1..] == s[1..] + [a];
    } else {
      assert s + [a] == [a];
    }
  }

  /** The registry: the list of accounts in creation order and the next id to hand out. */
  class Registry {
    var accounts: seq<Account>
    var nextId: nat
    /** Every id handed out so far, in the order it was handed out. */
    ghost var issued: seq<int>

    ghost predicate Valid()
      reads this
    {
      1 <= nextId &&
      |issued| == nextId - 1 &&
      (forall k :: 0 <= k < |issued| ==> issued[k] == k + 1) &&
      IdsOrdered(accounts, nextId)
    }

    /** A fresh registry: no accounts, and the counter at 1. */
    constructor ()
      ensures Valid()
      ensures accounts == [] && nextId == 1 && issued == []
    {
      accounts := [];
      nextId := 1;
      issued := [];
    }

    /** Stamps the counter onto a new account, appends it, and bumps the counter. */
    method Create(input: AccountCreate) returns (a: Account)
      requires Valid()
      modifies this
      ensures Valid()
      ensures a == Account(old(nextId), input.kind, input.personName, input.address)
      ensures a.id !in old(issued)
      ensures accounts == old(accounts) + [a]
      ensures nextId == old(nextId) + 1
      ensures issued == old(issued) + [a.id]
      ensures Lookup(accounts, a.id) == Ok(a)
      ensures forall other :: other != a.id ==> Lookup(accounts, other) == Lookup(old(accounts), other)
    {
      a := Account(nextId, input.kind, input.personName, input.address);
      AppendKeepsOrdered(accounts, nextId, a);
      LookupAfterAppend(accounts, nextId, a);
      forall other | other != a.id ensures Lookup(accounts + [a], other) == Lookup(accounts, other) {
        LookupOtherAfterAppend(accounts, a, other);
      }
      accounts := accounts + [a];
      issued := issued + [nextId];
      nextId := nextId + 1;
    }

    /** The whole collection, in creation order. */
    method GetAll() returns (r: seq<Account>)
      requires Valid()
      ensures r == accounts
      ensures forall j, k :: 0 <= j < k < |r| ==> r[j].id < r[k].id
    {
      r := accounts;
    }

    /** Scans the list for the first account with `id`. */
    method GetById(id: int) returns (r: Result<Account>)
      ensures r == Lookup(accounts, id)
    {
      var i := 0;
      while i < |accounts|
        invariant 0 <= i <= |accounts|
        invariant forall j :: 0 <= j < i ==> accounts[j].id != id
      {
        if accounts[i].id == id {
          return Ok(accounts[i]);
        }
        i := i + 1;
      }
      return NotFound;
    }

    /** Scans the list and deletes the first account with `id` in place. */
    method Delete(id: int) returns (r: Result<()>)
      requires Valid()
      modifies this
      ensures Valid()
      ensures r == (if Lookup(old(accounts), id).Ok? then Ok(()) else NotFound)
      ensures accounts == Remove(old(accounts), id)
      ensures nextId == old(nextId) && issued == old(issued)
      ensures Lookup(accounts, id) == NotFound
      ensures forall other :: other != id ==> Lookup(accounts, other) == Lookup(old(accounts), other)
    {
      RemoveKeepsOrdered(accounts, nextId, id);
      LookupAfterRemove(accounts, nextId, id);
      forall other | other != id ensures Lookup(Remove(accounts, id), other) == Lookup(accounts, other) {
        LookupOtherAfterRemove(accounts, id, other);
      }
      var i := 0;
      while i < |accounts|
        invariant 0 <= i <= |accounts|
        invariant accounts == old(accounts)
        invariant forall j :: 0 <= j < i ==> accounts[j].id != id
      {
        if accounts[i].id == id {
          accounts := accounts[..i] + accounts[i + 1..];
          return Ok(());
        }
        i := i + 1;
      }
      return NotFound;
    }
  }

  /** The sequence of requests worked through end to end: ids 1 and 2, then a delete that makes id 1 unknown. */
  method Walkthrough()
  {
    var reg := new Registry();
    var alice := reg.Create(AccountCreate(Personal, "Alice", "1 Main St"));
    assert alice == Account(1, Personal, "Alice", "1 Main St");
    var bob := reg.Create(AccountCreate(Business, "Bob", "2 Oak St"));
    assert bob.id == 2;
    var all := reg.GetAll();
    assert all == [alice, bob];
    var del := reg.Delete(1);
    assert del == Ok(());
    var got := reg.GetById(1);
    assert got == NotFound;
    var again := reg.Delete(1);
    assert again == NotFound;
    var carol := reg.Create(AccountCreate(Personal, "Carol", "3 Elm St"));
    assert carol.id == 3;
  }
}
