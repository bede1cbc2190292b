# Account registry

A Dafny model of the in-memory account registry of a small HTTP record-keeping
service. The registry is one piece of process-wide state. It holds a
list of account records in creation order and a counter, starting at 1, that
hands out account ids. Four operations act on it: create, list, get by id and
delete by id.

Everything is in `accounts.dfy`, module `Accounts`:

- `AccountType`, `AccountCreate` and `Account` are the enumerated account type,
  the typed create request, and the stored record with its id.
- `Result<T>` is `Ok(value)` or `NotFound`. `NotFound` stands for the
  "Account not found" failure.
- `FindIndex`, `Lookup` and `Remove` are specification functions on a list of
  accounts. They give the first position holding an id, what a get of that id
  returns, and the list with that first match taken out.
- `IdsOrdered(s, nextId)` is the registry invariant. Every id is at least 1 and
  below the counter, and ids strictly increase in list order, so they are
  pairwise distinct.
- `Registry` is a class with `accounts: seq<Account>` and `nextId: nat`. It also
  has a ghost `issued` that records every id handed out so far, in order.
  `Valid()` says that `issued` is exactly `[1, 2, …, nextId - 1]` and that
  `IdsOrdered` holds. Create and Delete update the fields in place, as the
  source does. GetById and Delete are linear scans with loop invariants.
- `Walkthrough` is a client method with no contract. It creates two accounts
  and checks their ids are 1 and 2. It checks the list, deletes id 1, checks
  that get and a second delete of id 1 fail, and checks that the next id is 3.
  Every step is proved from the methods' contracts alone.

## Model

| member | source | states |
|---|---|---|
| `Accounts.FindIndex` | main.py:41-43 | the result is the first position whose id matches: that entry has the id and no earlier one does; there is no result exactly when no entry has the id |
| `Accounts.Lookup` | main.py:39-44 | a get returns an account from the list carrying the requested id, and fails with NotFound exactly when no account has that id |
| `Accounts.Remove` | main.py:48-51 | with no match the list is unchanged; otherwise it is one shorter, the entries before the first match are kept in place, and the entries after it move down by one |
| `Accounts.OrderedIdsAreDistinct` | main.py:25-32 | ids strictly increasing in list order are pairwise distinct |
| `Accounts.AppendKeepsOrdered` | main.py:30-32 | appending a record stamped with the counter keeps every id positive, below the bumped counter, and strictly increasing |
| `Accounts.RemoveKeepsOrdered` | main.py:50 | deleting an entry keeps the id invariant under the same counter |
| `Accounts.LookupAfterRemove` | main.py:48-51 | with distinct ids, once an id is deleted a get of that id fails with NotFound |
| `Accounts.LookupCons` | main.py:41-43 | the scan returns the head when its id matches and otherwise continues with the tail |
| `Accounts.RemoveCons` | main.py:48-51 | the delete scan drops the head when its id matches and otherwise keeps the head and continues with the tail |
| `Accounts.LookupOtherAfterRemove` | main.py:48-51 | deleting one id does not change the result of a get of any other id |
| `Accounts.LookupAfterAppend` | main.py:30-31 | after a create, a get of the new id returns exactly the new record |
| `Accounts.LookupOtherAfterAppend` | main.py:31 | appending a record does not change the result of a get of any other id |
| `Accounts.Registry.constructor` | main.py:24-25 | the registry starts with no accounts, the counter at 1 and nothing issued |
| `Accounts.Registry.Create` | main.py:27-33 | the new record has id equal to the old counter and the input's type, name and address; that id was never issued before, even to an account since deleted; the list becomes the old list plus this record at the end; the counter goes up by one; a get of the new id finds it and gets of other ids are unaffected |
| `Accounts.Registry.GetAll` | main.py:35-37 | returns the current list, in creation order (strictly increasing ids), without changing state |
| `Accounts.Registry.GetById` | main.py:39-44 | the scan returns the first account with the requested id, or NotFound when there is none, without changing state |
| `Accounts.Registry.Delete` | main.py:46-52 | on a present id: success, and the first match is removed with the rest in order; on an absent id: NotFound and the list unchanged; the counter and the issued ids never change; afterwards a get of the id fails and gets of other ids are unaffected |

## Left out

- HTTP routing, status codes and response bodies (main.py:1, 6, 27, 35, 39, 46). The 404 `HTTPException` is the `NotFound` result. The success body `{"detail": "Account deleted"}` is `Ok(())`.
- Request validation and JSON coercion by the schema library (main.py:2, 14-21). The input is an already-typed `AccountCreate`, and the enumerated type's string spellings are not modelled.
- Accounts.Registry.GetAll: returns the list as a value. In the source the handler hands out the live list object itself, and that aliasing is not modelled.
- Payments and on-disk persistence of accounts. These are described for the wider service, but the modelled source file has no code for them, so there is nothing here to model.
- Concurrency. The source assumes requests run one at a time and has no locking, so the model is sequential.
