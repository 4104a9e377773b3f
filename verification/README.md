# Ethereum-event attestation records (`eth_msgs`)

This project models the attestation records that the ledger's Ethereum bridge
keeps about events seen on Ethereum, and it proves properties of that model:

- `EthMsgUpdate` says that some validators have just seen an event. It holds the
  event (`body`) and the ordered set `seen_by` of `(validator address, block height)`
  pairs. It derives `PartialEq`, `Eq`, `PartialOrd` and `Ord`.
- `EthMsg` is the aggregate stored per event. It holds the event, the voting power
  that has voted for it across all epochs, the set of validator addresses that voted
  (addresses only, without heights), and a `seen` flag.
- `From<MultiSignedEthEvent> for EthMsgUpdate` turns a multi-signed event into an
  update. A multi-signed event is the event plus a hash set of signers. The conversion
  keeps the event as the body. It collects the signers into the ordered set.

Files:

- `cmp.dfy` (module `Cmp`) models three-way comparison as `std::cmp::Ordering`.
  `TotalOrder` states the contract of `Ord`. The module also holds the orders that
  `#[derive(Ord)]` builds: the lexicographic order on pairs and on sequences.
- `sets.dfy` (module `Sets`) models the two set containers the conversion uses.
  Iterating a `HashSet` yields some enumeration of its elements, each exactly once
  (`IsEnumeration`). `collect` into a `BTreeSet` gives the set of the items
  (`Collect`). A `BTreeSet` iterates in ascending order (`Sorted`). Its `PartialEq`
  and `Ord` work on that iteration (`SetEq`, `CmpSet`).
- `eth_msgs.dfy` (module `EthMsgs`) holds the records, the conversion, and the
  derived equality and order of `EthMsgUpdate`.

The types that other crates define are opaque here. `EthereumEvent`, `Address` and
`FractionalVotingPower` are type parameters `E`, `A` and `P`. The `Ord` of
`EthereumEvent` and `Address` is a comparison-function parameter (`cmpE`, `cmpA`)
that must meet `TotalOrder`. `FractionalVotingPower` appears only as the type of
`EthMsg.voting_power`, and `EthMsg` derives no `Ord`, so it has no order parameter.
`BlockHeight` is a `u64` height, modelled as a newtype over `0 .. 2^64`.

The order in which a `HashSet` yields its elements is not defined by the program.
The conversion therefore takes it as a parameter: `iteration`, any enumeration of
the signer set.

## Model

| member | source | states |
|---|---|---|
| `EthMsgs.FromMultiSigned` | apps/src/lib/node/ledger/protocol/transactions/ethereum_events/eth_msgs.rs:33-42 | The update's body is the input event. A pair is in `seen_by` if and only if it is one of the signers. `seen_by` has exactly as many entries as there are signers, and as many as the hash set yielded. |
| `EthMsgs.FromIsTotal` | apps/src/lib/node/ledger/protocol/transactions/ethereum_events/eth_msgs.rs:33-42 | Every multi-signed event, including one with no signers, can be iterated and converted. The result is the event together with exactly its signer set. |
| `EthMsgs.FromIgnoresIterationOrder` | apps/src/lib/node/ledger/protocol/transactions/ethereum_events/eth_msgs.rs:37-40 | Any rearrangement of the hash set's iteration order is again a valid iteration. It gives the same update, which is the event with exactly the signer set. |
| `EthMsgs.HeightsAreKept` | apps/src/lib/node/ledger/protocol/transactions/ethereum_events/eth_msgs.rs:25-30 | A validator that signed at two different heights has both `(validator, height)` entries in the update. So `seen_by` has at least two entries: heights are not collapsed. |
| `EthMsgs.FromSoleValidator` | apps/src/lib/node/ledger/protocol/transactions/ethereum_events/eth_msgs.rs:71-95 | The unit test: one signer `(validator, 100)` converts to the update with the same event and the set collected from that single pair. The one-element hash set can only be iterated one way. |
| `EthMsgs.SignerOrderIsTotal` | apps/src/lib/node/ledger/protocol/transactions/ethereum_events/eth_msgs.rs:30 | About `SignerOrder`, the tuple `Ord` on `(Address, BlockHeight)` pairs: it compares the address first, then the height. It is a total order whenever the address order is one. |
| `EthMsgs.UpdateEqIsStructural` | apps/src/lib/node/ledger/protocol/transactions/ethereum_events/eth_msgs.rs:11-31 | About `UpdateEq`, the derived `PartialEq`: it holds if and only if the bodies are equal and the `seen_by` sets are equal, that is, if and only if the updates are the same value. |
| `EthMsgs.UpdateOrderIsTotal` | apps/src/lib/node/ledger/protocol/transactions/ethereum_events/eth_msgs.rs:11-31 | About `CmpUpdate`, the derived `Ord` (body first, then `seen_by`): it is a total order. It answers `Equal` exactly for equal updates, so it agrees with derived equality. |
| `EthMsgs.FromIteratesCanonically` | apps/src/lib/node/ledger/protocol/transactions/ethereum_events/eth_msgs.rs:25-30 | Whatever order the signers arrived in, the update's `seen_by` iterates in the one ascending order of the signer set. |
| `Sets.Collect` | apps/src/lib/node/ledger/protocol/transactions/ethereum_events/eth_msgs.rs:39 | Collecting items into a set gives exactly the items collected, and no more elements than there were items. |
| `Sets.CollectDistinct` | apps/src/lib/node/ledger/protocol/transactions/ethereum_events/eth_msgs.rs:39 | Collecting pairwise distinct items loses none of them: the set's size equals the number of items. |
| `Sets.CollectEnumeration` | apps/src/lib/node/ledger/protocol/transactions/ethereum_events/eth_msgs.rs:39 | Collecting any enumeration of a set gives back that set. The enumeration has the set's size. |
| `Sets.CollectPermutation` | apps/src/lib/node/ledger/protocol/transactions/ethereum_events/eth_msgs.rs:39 | Two sequences with the same items, in any order, collect to the same set. |
| `Sets.SomeEnumeration` | apps/src/lib/node/ledger/protocol/transactions/ethereum_events/eth_msgs.rs:39 | Every finite set has an enumeration that yields each element exactly once, so `into_iter` on the signers always has an order to follow. |
| `Sets.PermutedEnumeration` | apps/src/lib/node/ledger/protocol/transactions/ethereum_events/eth_msgs.rs:39 | A rearrangement of an enumeration of a set is again an enumeration of that set. |
| `Sets.Sorted` | apps/src/lib/node/ledger/protocol/transactions/ethereum_events/eth_msgs.rs:25-30 | A `BTreeSet` iterates its elements exactly once each, in strictly ascending order. |
| `Sets.AscendingIsUnique` | apps/src/lib/node/ledger/protocol/transactions/ethereum_events/eth_msgs.rs:25-27 | Two strictly ascending sequences with the same elements are equal. |
| `Sets.SortedIsCanonical` | apps/src/lib/node/ledger/protocol/transactions/ethereum_events/eth_msgs.rs:25-27 | Any strictly ascending enumeration of a set is the one a `BTreeSet` holding that set iterates in. |
| `Sets.SetEqIsEquality` | apps/src/lib/node/ledger/protocol/transactions/ethereum_events/eth_msgs.rs:16-17 | About `SetEq`, `PartialEq for BTreeSet`: it holds of two sets if and only if they hold the same elements. It compares lengths, then elements one by one in iteration order. |
| `Sets.SetOrderIsTotal` | apps/src/lib/node/ledger/protocol/transactions/ethereum_events/eth_msgs.rs:14-15 | About `CmpSet`, `Ord for BTreeSet` (lexicographic on the two iterations): it is a total order. It answers `Equal` exactly for equal sets. |
| `Cmp.PairOrderIsTotal` | apps/src/lib/node/ledger/protocol/transactions/ethereum_events/eth_msgs.rs:30 | About `CmpPair`, the derived `Ord` of a pair: for totally ordered components it is a total order. |
| `Cmp.SeqOrderIsTotal` | apps/src/lib/node/ledger/protocol/transactions/ethereum_events/eth_msgs.rs:14-15 | About `CmpSeq`, the lexicographic order of `Iterator::cmp`: it is a total order: it answers `Equal` exactly for equal sequences, swapping the arguments mirrors its answer, and `Less` is transitive. |

`EthMsg.seen_by` is a `set<A>` of addresses without heights, so by its type it
holds each validator address at most once.

The code does not check that a multi-signed event has any signers. So the model
accepts an empty signer set and converts it to an update with an empty `seen_by`.
A non-empty signer set is a promise of whoever produces the event, not of this
conversion.

## Left out

- Borsh serialization and schema derives: they come from a foreign derive macro, and its byte layout is not visible in this file.
- The `Hash`, `Debug` and `Clone` derives: hashing, formatting and copying are library behaviour. Dafny values are immutable, so a clone is the value itself.
- The internals of `EthereumEvent`, `Address`, `FractionalVotingPower` and `MultiSignedEthEvent`: other crates define them. The first three are type parameters. Only `EthereumEvent` and `Address` get an order: a comparison parameter (`cmpE`, `cmpA`) that meets `TotalOrder`. `FractionalVotingPower` appears only as the type of `EthMsg.voting_power`; `EthMsg` derives no `Ord`.
- `PartialOrd for EthMsgUpdate`: for these fields the derived `partial_cmp` is `Some` of the derived `cmp`, so `CmpUpdate` models both and no separate member is written.
- The iteration order of `HashSet`: it depends on the hasher's random state, so it is the `iteration` parameter of the conversion.
- Merging an update into an `EthMsg`, summing voting power and setting `seen`: no such logic is in this file. `EthMsg` is modelled by its shape only, and its derived `PartialEq` is Dafny's structural equality of datatype values.
- The test generators `arbitrary_single_transfer` and `arbitrary_nonce` and the `address::testing` fixtures: they are test-only helpers from other crates. `FromSoleValidator` takes an arbitrary event and an arbitrary validator instead.
