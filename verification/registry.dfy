/** The contract registry: the ordered list of tracked contracts held in the
    application's `contracts` state, and the lookup the refreshes perform on it. */
module Registry {
  import opened Wrappers

  /** One tracked contract (`ContractInfo`): the name and address of its
      `contract` object, and its last-known UTXOs, `undefined` before the
      first refresh. UTXO entries are never inspected, so their type is a
      parameter. */
  datatype Record<Utxo> = Record(name: string, address: string, utxos: Option<seq<Utxo>>)

  /** Some record carries the given name. */
  predicate HasName<Utxo>(rs: seq<Record<Utxo>>, name: string)
  {
    exists j :: 0 <= j < |rs| && rs[j].name == name
  }

  /** `i` is the first position whose record carries the given name. */
  predicate IsFirstMatch<Utxo>(rs: seq<Record<Utxo>>, name: string, i: int)
  {
    0 <= i < |rs| && rs[i].name == name && forall j :: 0 <= j < i ==> rs[j].name != name
  }

  /** No two records share a name: the invariant the creation path is meant to keep. */
  predicate UniqueNames<Utxo>(rs: seq<Record<Utxo>>)
  {
    forall j, k :: 0 <= j < k < |rs| ==> rs[j].name != rs[k].name
  }

  /** The two registries list the same contracts (names and addresses) in the
      same order, whatever their UTXOs. */
  predicate SameContracts<Utxo>(a: seq<Record<Utxo>>, b: seq<Record<Utxo>>)
  {
    |a| == |b| && forall j :: 0 <= j < |a| ==> a[j].name == b[j].name && a[j].address == b[j].address
  }

  /** `Array.prototype.findIndex` with the predicate `contract.name == name`:
      the first matching position, or -1 when no record matches. */
  function FindIndex<Utxo>(rs: seq<Record<Utxo>>, name: string): (r: int)
    ensures -1 <= r < |rs|
    ensures r == -1 <==> !HasName(rs, name)
    ensures r != -1 ==> IsFirstMatch(rs, name, r)
  {
    if |rs| == 0 then -1
    else if rs[0].name == name then 0
    else
      var k := FindIndex(rs[1..], name);
      if k == -1 then
        assert forall j :: 1 <= j < |rs| ==> rs[j] == rs[1..][j - 1];
        -1
      else k + 1
  }

  /** The first match is determined by the names alone, so two registries
      listing the same contracts agree on where a name is found. */
  lemma FindIndexSameContracts<Utxo>(a: seq<Record<Utxo>>, b: seq<Record<Utxo>>, name: string)
    requires SameContracts(a, b)
    ensures FindIndex(a, name) == FindIndex(b, name)
  {
  }

  /** When names are unique, the record found is the only one with that name. */
  lemma UniqueNameFoundOnce<Utxo>(rs: seq<Record<Utxo>>, name: string, j: int)
    requires UniqueNames(rs)
    requires 0 <= j < |rs| && rs[j].name == name
    ensures FindIndex(rs, name) == j
  {
  }
}
