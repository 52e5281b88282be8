# UTXO refresh of the CashScript playground

This project models the UTXO synchronisation at the heart of the playground's
`App` component (`src/components/App.tsx`). The component keeps a registry of
tracked contracts (`contracts`). Each record pairs a contract's name and
address with its last-known unspent outputs (UTXOs). Two routines refresh those
UTXOs from the active network provider. Both read the registry, query the
provider, and install a new registry with `setContracts`:

- `updateUtxosContract(name)` refreshes one contract.
- `updateAllUtxosContracts()` refreshes every contract, all or nothing.

Files:

- `wrappers.dfy`: `Option` (a value that may be `undefined`) and `Result` (a
  promise that fulfilled or rejected).
- `registry.dfy`: the contract record and `findIndex` by name.
- `sync.dfy`: each refresh as a function from the registry and the provider to
  a `Run`. A `Run` holds the outcome (`Installed`, `Unchanged` or `Failed`) and
  the addresses queried, in issue order. The lemmas relating several refreshes
  are here too.
- `store.dfy`: the component state as a class with `provider` and `contracts`
  fields. The single refresh is written imperatively, with a local array for
  the per-record UTXO lists. The bulk refresh computes the function and assigns
  the field once. Both methods are proved equal to the functions in `sync.dfy`.

UTXO entries are a type parameter because the code never looks inside them.
The provider's `getUtxos` is a function from an address to a fulfilled list or
a rejection reason.

Four behaviours of the code are easy to miss:

- When the name is absent, `findIndex` returns -1. The `== undefined` guard at
  line 43 therefore lets it through, and `contracts?.[-1].contract` at line 44
  throws. A missing name is therefore not a silent no-op. The model gives
  `Failed(UndefinedDereference)`, with no query and no change to the registry.
  An empty registry takes this path as well.
- The single refresh also replaces every other record's undefined UTXO list
  with `[]` (line 47). Other records keep their UTXOs only when those were
  already defined.
- The bulk refresh on an empty (but defined) registry is not an early return.
  `if(!contracts)` does not fire for `[]`, `Promise.all([])` fulfils, and
  `setContracts([])` runs. The model gives `Installed([])` with no query.
- Every bulk query is issued before any of them settles. The queried addresses
  are therefore all of the registry's addresses, even when one query rejects.

## Model

| member | source | states |
|---|---|---|
| `Registry.FindIndex` | src/components/App.tsx:42 | The result is -1 exactly when no record has the name. Otherwise it is the first position whose record has the name. |
| `Registry.FindIndexSameContracts` | src/components/App.tsx:42 | Two registries with the same names in the same order find a name at the same position, whatever their UTXOs. |
| `Registry.UniqueNameFoundOnce` | src/components/App.tsx:42 | When names are unique, the lookup finds the one record that has the name. |
| `Sync.FetchAll` | src/components/App.tsx:60-64 | `Promise.all` over one query per address. It fulfils exactly when every query fulfils, and then result *j* is query *j*'s answer, in order. Otherwise it rejects with the reason of some rejected query. |
| `Sync.SingleRefresh` | src/components/App.tsx:41-55 | An undefined registry returns early with no query. An absent name fails at the line-44 dereference with no query. Otherwise there is exactly one query, for the first matching record's address. On rejection it fails with that reason. On success it installs a registry with the same contracts in the same order. The found record then holds the fetched list, and every other record keeps its UTXOs, with undefined turned into `[]`. |
| `Sync.BulkRefresh` | src/components/App.tsx:57-70 | An undefined registry returns early with no query. Otherwise it issues one query per record, keyed by that record's address, in registry order. It installs exactly when every query fulfils, and then keeps names, addresses and order, with record *j* holding query *j*'s result. Otherwise it fails with a rejected query's reason and installs nothing. |
| `Sync.SingleRefreshIdempotent` | src/components/App.tsx:41-55 | If the provider's data has not changed, a second single refresh of the same name installs the same registry as the first. |
| `Sync.BulkRefreshIdempotent` | src/components/App.tsx:57-70 | If the provider's data has not changed, a second bulk refresh installs the same registry as the first. |
| `Sync.SingleAfterBulkChangesNothing` | src/components/App.tsx:41-70 | After a successful bulk refresh, a single refresh of any tracked name with the same provider data installs the registry that is already there. |
| `Sync.SingleAgreesWithBulk` | src/components/App.tsx:41-70 | When a bulk refresh would succeed, a single refresh of a tracked name also succeeds, and the two give the refreshed record the same value. |
| `Sync.RefreshesKeepContracts` | src/components/App.tsx:51-68 | Neither refresh adds, drops, reorders, renames or re-addresses a contract. Both therefore keep names unique if they were unique. |
| `Sync.SingleRefreshIsolation` | src/components/App.tsx:47-53 | A successful single refresh leaves every record other than the first match exactly as it was when its UTXOs were defined, including a later record with the same name. |
| `AppStore.Store.constructor` | src/components/App.tsx:16-19 | The component starts with the given provider and an undefined registry. |
| `AppStore.Store.UpdateUtxosContract` | src/components/App.tsx:41-55 | The imperative single refresh, with a local per-record UTXO array updated at the found slot. It returns exactly `SingleRefresh` of the registry read at call time. It changes only `contracts`, which becomes the installed registry on success and stays as it was otherwise. |
| `AppStore.Store.UpdateAllUtxosContracts` | src/components/App.tsx:57-70 | Returns exactly `BulkRefresh` of the registry read at call time. It changes only `contracts`, which becomes the installed registry on success and stays as it was on failure or early return. |

## Left out

- Rendering, JSX, the tabs and the UI component imports (lines 1-13, 72-104). These are presentation only.
- The `useEffect` at lines 37-39, which runs one bulk refresh whenever the provider changes. When React runs effects is not modelled.
- Interleaving of concurrent refreshes. Each refresh closes over the registry from render time and overwrites the state when it ends, so the last writer wins. The model treats each refresh as one atomic read-fetch-install step. It adds no staleness guard, because the code has none.
- Provider internals (`MockNetworkProvider`, `NetworkProvider` from `cashscript`). `getUtxos` is a deterministic function from an address to a fulfilled list or a rejection reason. A query therefore gives the same answer every time it is made.
- `Sync.FetchAll`: `Promise.all` rejects with whichever rejection settles first, which depends on timing. The model reports the first rejection in registry order. Its contract promises only that the reason comes from some rejected query.
- UTXO contents. They are never inspected, so they stay opaque.
- Aliasing. The spread at lines 52 and 67 is shallow, so the new records share the `contract` object with the old ones. Records here are values, so there is no sharing to model.
- The other fields of a contract record and of its `contract` object. A record here keeps only the contract's name and address and the record's `utxos`. The spreads at lines 52 and 67 copy every other field unchanged in both refreshes.
- The guard at line 45 (`if (!currentContract) return`). A record's `contract` object is always truthy, so the guard never fires.
- The fallback `?? []` at line 62. A promise is never nullish, so it has no effect.
- The wallets, artifacts and contract source text state (lines 17-18, 20-35).
