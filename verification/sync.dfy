/** The UTXO synchronizer: what one single-contract refresh and one bulk
    refresh do, each taken as one atomic read-fetch-install step over the
    registry value read at call time. */
module Sync {
  import opened Wrappers
  import opened Registry

  /** The network provider's `getUtxos`: for an address, the fulfilled list
      of UTXOs or the rejection reason. Live and simulated providers alike. */
  type Provider<Utxo> = string -> Result<seq<Utxo>, string>

  /** Why a refresh threw. */
  datatype Failure =
    | UndefinedDereference      // `contracts[-1].contract` when the name is absent
    | ProviderRejected(reason: string)  // a `getUtxos` promise rejected

  /** How a refresh ended: it called `setContracts` with a new registry,
      returned early without calling it, or threw before calling it. */
  datatype Outcome<Utxo> =
    | Installed(registry: seq<Record<Utxo>>)
    | Unchanged
    | Failed(failure: Failure)

  /** A refresh's outcome together with the addresses it asked the provider
      for, in the order the queries were issued. */
  datatype Run<Utxo> = Run(outcome: Outcome<Utxo>, queried: seq<string>)

  /** The `contracts` state once a refresh has ended: only an installed
      registry replaces it. */
  function After<Utxo>(contracts: Option<seq<Record<Utxo>>>, outcome: Outcome<Utxo>): Option<seq<Record<Utxo>>>
  {
    if outcome.Installed? then Some(outcome.registry) else contracts
  }

  /** The UTXO list a record contributes before the fetch: `utxos ?? []`. */
  function OrEmpty<Utxo>(utxos: Option<seq<Utxo>>): seq<Utxo>
  {
    if utxos.Some? then utxos.value else []
  }

  /** `next` is `prev` after a single refresh of position `i` that fetched
      `fetched`: same contracts in the same order, record `i` carries the
      fetched list, and every other record keeps its UTXOs, an undefined
      list having become the empty one. */
  ghost predicate RefreshedAt<Utxo>(prev: seq<Record<Utxo>>, next: seq<Record<Utxo>>, i: int, fetched: seq<Utxo>)
  {
    SameContracts(prev, next) &&
    0 <= i < |prev| &&
    next[i].utxos == Some(fetched) &&
    forall j :: 0 <= j < |prev| && j != i ==>
      next[j].utxos == (if prev[j].utxos.Some? then prev[j].utxos else Some([]))
  }

  /** Every record's address answers successfully. */
  predicate AllFetched<Utxo>(rs: seq<Record<Utxo>>, provider: Provider<Utxo>)
  {
    forall j :: 0 <= j < |rs| ==> provider(rs[j].address).Ok?
  }

  /** `Promise.all` over one `getUtxos` query per address: every result in
      order when all of them fulfil, otherwise the reason of one that
      rejected. */
  function FetchAll<Utxo>(addresses: seq<string>, provider: Provider<Utxo>): (r: Result<seq<seq<Utxo>>, string>)
    ensures r.Ok? <==> forall j :: 0 <= j < |addresses| ==> provider(addresses[j]).Ok?
    ensures r.Ok? ==> (|r.value| == |addresses| &&
      forall j :: 0 <= j < |addresses| ==> r.value[j] == provider(addresses[j]).value)
    ensures r.Err? ==> exists j :: 0 <= j < |addresses| && provider(addresses[j]) == Err(r.error)
  {
    if |addresses| == 0 then Ok([])
    else
      match provider(addresses[0])
      case Err(e) => Err(e)
      case Ok(first) =>
        match FetchAll(addresses[1..], provider)
        case Err(e) =>
          assert forall j :: 1 <= j < |addresses| ==> addresses[j] == addresses[1..][j - 1];
          Err(e)
        case Ok(rest) =>
          assert forall j :: 1 <= j < |addresses| ==> addresses[j] == addresses[1..][j - 1];
          Ok([first] + rest)
  }

  /** `updateUtxosContract(name)` on the registry `contracts` read at call time. */
  function SingleRefresh<Utxo>(contracts: Option<seq<Record<Utxo>>>, name: string, provider: Provider<Utxo>): (r: Run<Utxo>)
    // an undefined registry: early return, no query
    ensures contracts.None? ==> r == Run(Unchanged, [])
    // no record has the name: the dereference throws before any query
    ensures contracts.Some? && !HasName(contracts.value, name) ==> r == Run(Failed(UndefinedDereference), [])
    // the first record with the name: exactly one query, for its address
    ensures forall i | contracts.Some? && IsFirstMatch(contracts.value, name, i) ::
      r.queried == [contracts.value[i].address] &&
      (provider(contracts.value[i].address).Ok? ==>
        r.outcome.Installed? &&
        RefreshedAt(contracts.value, r.outcome.registry, i, provider(contracts.value[i].address).value)) &&
      (provider(contracts.value[i].address).Err? ==>
        r.outcome == Failed(ProviderRejected(provider(contracts.value[i].address).error)))
  {
    match contracts
    case None => Run(Unchanged, [])
    case Some(cs) =>
      var contractIndex := FindIndex(cs, name);
      if contractIndex == -1 then Run(Failed(UndefinedDereference), [])
      else
        var address := cs[contractIndex].address;
        match provider(address)
        case Err(e) => Run(Failed(ProviderRejected(e)), [address])
        case Ok(fetched) =>
          var utxosList := seq(|cs|, j requires 0 <= j < |cs| => OrEmpty(cs[j].utxos))[contractIndex := fetched];
          var newContracts := seq(|cs|, j requires 0 <= j < |cs| => cs[j].(utxos := Some(utxosList[j])));
          Run(Installed(newContracts), [address])
  }

  /** `updateAllUtxosContracts()` on the registry `contracts` read at call time. */
  function BulkRefresh<Utxo>(contracts: Option<seq<Record<Utxo>>>, provider: Provider<Utxo>): (r: Run<Utxo>)
    // an undefined registry: early return, no query
    ensures contracts.None? ==> r == Run(Unchanged, [])
    // otherwise one query per record, keyed by its address, in registry order
    ensures contracts.Some? ==> (|r.queried| == |contracts.value| &&
      forall j :: 0 <= j < |contracts.value| ==> r.queried[j] == contracts.value[j].address)
    // installed exactly when every query fulfils, record j then carrying result j
    ensures contracts.Some? ==> (r.outcome.Installed? <==> AllFetched(contracts.value, provider))
    ensures contracts.Some? && r.outcome.Installed? ==>
      SameContracts(contracts.value, r.outcome.registry) &&
      forall j :: 0 <= j < |contracts.value| ==>
        r.outcome.registry[j].utxos == Some(provider(contracts.value[j].address).value)
    // otherwise it fails with the reason of a rejected query and installs nothing
    ensures contracts.Some? && !r.outcome.Installed? ==>
      r.outcome.Failed? && r.outcome.failure.ProviderRejected? &&
      exists j :: 0 <= j < |contracts.value| &&
        provider(contracts.value[j].address) == Err(r.outcome.failure.reason)
  {
    match contracts
    case None => Run(Unchanged, [])
    case Some(cs) =>
      var addresses := seq(|cs|, j requires 0 <= j < |cs| => cs[j].address);
      match FetchAll(addresses, provider)
      case Err(e) => Run(Failed(ProviderRejected(e)), addresses)
      case Ok(utxosContracts) =>
        var newContracts := seq(|cs|, j requires 0 <= j < |cs| => cs[j].(utxos := Some(utxosContracts[j])));
        Run(Installed(newContracts), addresses)
  }

  /** A second single refresh with the provider's data unchanged installs the
      very registry the first one installed. */
  lemma SingleRefreshIdempotent<Utxo>(contracts: Option<seq<Record<Utxo>>>, name: string, provider: Provider<Utxo>)
    requires SingleRefresh(contracts, name, provider).outcome.Installed?
    ensures SingleRefresh(After(contracts, SingleRefresh(contracts, name, provider).outcome), name, provider).outcome
         == SingleRefresh(contracts, name, provider).outcome
  {
  }

  /** A second bulk refresh with the provider's data unchanged installs the
      very registry the first one installed. */
  lemma BulkRefreshIdempotent<Utxo>(contracts: Option<seq<Record<Utxo>>>, provider: Provider<Utxo>)
    requires BulkRefresh(contracts, provider).outcome.Installed?
    ensures BulkRefresh(After(contracts, BulkRefresh(contracts, provider).outcome), provider).outcome
         == BulkRefresh(contracts, provider).outcome
  {
  }

  /** Once a bulk refresh has installed fresh data, a single refresh of any
      tracked contract with the same provider data installs nothing new. */
  lemma SingleAfterBulkChangesNothing<Utxo>(contracts: Option<seq<Record<Utxo>>>, name: string, provider: Provider<Utxo>)
    requires BulkRefresh(contracts, provider).outcome.Installed?
    requires HasName(contracts.value, name)
    ensures SingleRefresh(After(contracts, BulkRefresh(contracts, provider).outcome), name, provider).outcome
         == BulkRefresh(contracts, provider).outcome
  {
  }

  /** The single and bulk refreshes agree on the refreshed record: both give
      it the provider's answer for its address. */
  lemma SingleAgreesWithBulk<Utxo>(contracts: Option<seq<Record<Utxo>>>, name: string, provider: Provider<Utxo>)
    requires BulkRefresh(contracts, provider).outcome.Installed?
    requires HasName(contracts.value, name)
    ensures SingleRefresh(contracts, name, provider).outcome.Installed?
    ensures var i := FindIndex(contracts.value, name);
      SingleRefresh(contracts, name, provider).outcome.registry[i]
        == BulkRefresh(contracts, provider).outcome.registry[i]
  {
  }

  /** Neither refresh adds, drops, reorders or renames a contract, so both
      keep the names unique when they were. */
  lemma RefreshesKeepContracts<Utxo>(contracts: Option<seq<Record<Utxo>>>, name: string, provider: Provider<Utxo>)
    requires contracts.Some?
    ensures var after := After(contracts, SingleRefresh(contracts, name, provider).outcome);
      after.Some? && SameContracts(contracts.value, after.value) &&
      (UniqueNames(contracts.value) ==> UniqueNames(after.value))
    ensures var after := After(contracts, BulkRefresh(contracts, provider).outcome);
      after.Some? && SameContracts(contracts.value, after.value) &&
      (UniqueNames(contracts.value) ==> UniqueNames(after.value))
  {
  }

  /** A single refresh touches no record other than the one found, beyond
      turning an undefined UTXO list into the empty one; a later record with
      the same name is left alone too. */
  lemma SingleRefreshIsolation<Utxo>(contracts: Option<seq<Record<Utxo>>>, name: string, provider: Provider<Utxo>, j: int)
    requires contracts.Some?
    requires SingleRefresh(contracts, name, provider).outcome.Installed?
    requires 0 <= j < |contracts.value| && j != FindIndex(contracts.value, name)
    requires contracts.value[j].utxos.Some?
    ensures SingleRefresh(contracts, name, provider).outcome.registry[j] == contracts.value[j]
  {
  }
}
