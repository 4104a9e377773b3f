/**
 The Ethereum-event attestation records of the ledger: `EthMsgUpdate`, the
 news that some validators have just seen an event; `EthMsg`, the aggregate
 stored per event; and the conversion of a multi-signed event (as it comes
 out of the validators' vote extensions) into an update.

 `EthereumEvent`, `Address` and `FractionalVotingPower` belong to other
 crates and are type parameters here (`E`, `A`, `P`). The `Ord` of
 `EthereumEvent` and `Address` is passed in as a comparison function that
 meets `TotalOrder`; `FractionalVotingPower` is only the type of
 `EthMsg.voting_power` and needs no order.
 */
module EthMsgs {
  import opened Cmp
  import opened Sets

  /** `BlockHeight`: a block height held in a `u64`. */
  newtype BlockHeight = h: int | 0 <= h < 0x1_0000_0000_0000_0000

  /** A validator together with the height at which it saw the event. */
  type Signer<A> = (A, BlockHeight)

  /** An event with the validators that signed it. The signers are a hash
      set: no repeated pair, and no defined iteration order. */
  datatype MultiSignedEthEvent<E, A(==)> = MultiSignedEthEvent(event: E, signers: set<Signer<A>>)

  /** An Ethereum event being seen by some validators: the event and the
      `(validator, height)` pairs that have just seen it. */
  datatype EthMsgUpdate<E, A(==)> = EthMsgUpdate(body: E, seen_by: set<Signer<A>>)

  /** An event as stored under `eth_msgs`: the event, the voting power that
      has voted for it across all epochs, the validators that voted for it
      (addresses only, without heights), and whether it has been acted on. */
  datatype EthMsg<E, A(==), P> = EthMsg(body: E, voting_power: P, seen_by: set<A>, seen: bool)

  /** `From<MultiSignedEthEvent> for EthMsgUpdate`. The event becomes the
      body and the signers are collected into the ordered set `seen_by`;
      `iteration` is the order in which the signers' hash set happens to
      yield its elements. */
  function FromMultiSigned<E, A(==,!new)>(m: MultiSignedEthEvent<E, A>, iteration: seq<Signer<A>>): (u: EthMsgUpdate<E, A>)
    requires IsEnumeration(iteration, m.signers)
    ensures u.body == m.event
    ensures forall p :: p in u.seen_by <==> p in m.signers
    ensures |u.seen_by| == |m.signers| == |iteration|
  {
    CollectEnumeration(iteration, m.signers);
    EthMsgUpdate(m.event, Collect(iteration))
  }

  /** Every signer set can be iterated, so every multi-signed event converts. */
  lemma FromIsTotal<E, A(!new)>(m: MultiSignedEthEvent<E, A>)
    ensures IsEnumeration(SomeEnumeration(m.signers), m.signers)
    ensures FromMultiSigned(m, SomeEnumeration(m.signers)) == EthMsgUpdate(m.event, m.signers)
  {
  }

  /** The update does not depend on the order in which the hash set yields
      its signers: any rearrangement of the iteration gives the same update,
      and that update is the event with exactly the signer set. */
  lemma FromIgnoresIterationOrder<E, A(!new)>(m: MultiSignedEthEvent<E, A>, iteration: seq<Signer<A>>, other: seq<Signer<A>>)
    requires IsEnumeration(iteration, m.signers)
    requires multiset(other) == multiset(iteration)
    ensures IsEnumeration(other, m.signers)
    ensures FromMultiSigned(m, other) == FromMultiSigned(m, iteration) == EthMsgUpdate(m.event, m.signers)
  {
    PermutedEnumeration(iteration, other, m.signers);
  }

  /** Entries are keyed by the whole `(validator, height)` pair: a validator
      that signed at two heights has two entries in the update. */
  lemma HeightsAreKept<E, A(!new)>(m: MultiSignedEthEvent<E, A>, iteration: seq<Signer<A>>, v: A, h1: BlockHeight, h2: BlockHeight)
    requires IsEnumeration(iteration, m.signers)
    requires (v, h1) in m.signers && (v, h2) in m.signers && h1 != h2
    ensures (v, h1) in FromMultiSigned(m, iteration).seen_by
    ensures (v, h2) in FromMultiSigned(m, iteration).seen_by
    ensures |FromMultiSigned(m, iteration).seen_by| >= 2
  {
  }

  /** The unit test of the conversion: one validator that signed at height 100
      converts to the update holding the same event and exactly that signer,
      and a one-element hash set can only be iterated one way. */
  lemma FromSoleValidator<E, A(!new)>(event: E, validator: A, iteration: seq<Signer<A>>)
    requires IsEnumeration(iteration, {(validator, 100)})
    ensures iteration == [(validator, 100)]
    ensures FromMultiSigned(MultiSignedEthEvent(event, {(validator, 100)}), iteration)
         == EthMsgUpdate(event, Collect([(validator, 100)]))
  {
    var u := FromMultiSigned(MultiSignedEthEvent(event, {(validator, 100)}), iteration);
    assert |iteration| == 1;
    assert iteration[0] in {(validator, 100 as BlockHeight)};
    assert Collect([(validator, 100 as BlockHeight)]) == {(validator, 100)};
  }

  /** `Ord for BlockHeight`: the order of the underlying integers. */
  function HeightOrder(): (c: (BlockHeight, BlockHeight) -> Ordering)
  {
    (a: BlockHeight, b: BlockHeight) => CmpInt(a as int, b as int)
  }

  /** `Ord` for `(Address, BlockHeight)`: by validator first, then by height. */
  function SignerOrder<A>(cmpA: (A, A) -> Ordering): (c: (Signer<A>, Signer<A>) -> Ordering)
  {
    PairOrder(cmpA, HeightOrder())
  }

  lemma SignerOrderIsTotal<A(!new)>(cmpA: (A, A) -> Ordering)
    requires TotalOrder(cmpA)
    ensures TotalOrder(SignerOrder(cmpA))
  {
    assert TotalOrder(HeightOrder());
    PairOrderIsTotal(cmpA, HeightOrder());
  }

  /** The derived `PartialEq for EthMsgUpdate`: equal bodies, and `seen_by`
      sets equal under `PartialEq for BTreeSet`. */
  ghost predicate UpdateEq<E, A(!new)>(cmpA: (A, A) -> Ordering, a: EthMsgUpdate<E, A>, b: EthMsgUpdate<E, A>)
    requires TotalOrder(cmpA)
  {
    SignerOrderIsTotal(cmpA);
    a.body == b.body && SetEq(SignerOrder(cmpA), a.seen_by, b.seen_by)
  }

  /** The derived `Ord for EthMsgUpdate`: by body, and for equal bodies by
      `seen_by` under `Ord for BTreeSet`. */
  ghost function CmpUpdate<E, A(!new)>(cmpE: (E, E) -> Ordering, cmpA: (A, A) -> Ordering, a: EthMsgUpdate<E, A>, b: EthMsgUpdate<E, A>): (r: Ordering)
    requires TotalOrder(cmpA)
  {
    SignerOrderIsTotal(cmpA);
    match cmpE(a.body, b.body)
    case Equal => CmpSet(SignerOrder(cmpA), a.seen_by, b.seen_by)
    case o => o
  }

  /** Derived equality on updates is structural: two updates are equal
      exactly when their bodies and their sets of signers are. */
  lemma UpdateEqIsStructural<E, A(!new)>(cmpA: (A, A) -> Ordering, a: EthMsgUpdate<E, A>, b: EthMsgUpdate<E, A>)
    requires TotalOrder(cmpA)
    ensures UpdateEq(cmpA, a, b) <==> a.body == b.body && a.seen_by == b.seen_by
    ensures UpdateEq(cmpA, a, b) <==> a == b
  {
    SignerOrderIsTotal(cmpA);
    SetEqIsEquality(SignerOrder(cmpA), a.seen_by, b.seen_by);
  }

  /** The derived order on updates is a total order, and it calls two
      updates `Equal` exactly when derived equality does. */
  lemma UpdateOrderIsTotal<E(!new), A(!new)>(cmpE: (E, E) -> Ordering, cmpA: (A, A) -> Ordering)
    requires TotalOrder(cmpE) && TotalOrder(cmpA)
    ensures forall a, b :: CmpUpdate(cmpE, cmpA, a, b) == Equal <==> a == b
    ensures forall a, b :: CmpUpdate(cmpE, cmpA, a, b) == Equal <==> UpdateEq(cmpA, a, b)
    ensures forall a, b :: CmpUpdate(cmpE, cmpA, a, b) == Less <==> CmpUpdate(cmpE, cmpA, b, a) == Greater
    ensures forall a, b, c :: CmpUpdate(cmpE, cmpA, a, b) == Less && CmpUpdate(cmpE, cmpA, b, c) == Less
                              ==> CmpUpdate(cmpE, cmpA, a, c) == Less
  {
    SignerOrderIsTotal(cmpA);
    var cs := SignerOrder(cmpA);
    SetOrderIsTotal(cs);
    forall a: EthMsgUpdate<E, A>, b: EthMsgUpdate<E, A>
      ensures CmpUpdate(cmpE, cmpA, a, b) == Equal <==> UpdateEq(cmpA, a, b)
    {
      UpdateEqIsStructural(cmpA, a, b);
    }
    forall a: EthMsgUpdate<E, A>, b: EthMsgUpdate<E, A>, c: EthMsgUpdate<E, A>
      | CmpUpdate(cmpE, cmpA, a, b) == Less && CmpUpdate(cmpE, cmpA, b, c) == Less
      ensures CmpUpdate(cmpE, cmpA, a, c) == Less
    {
      if cmpE(a.body, b.body) == Equal {
        assert a.body == b.body;
      } else if cmpE(b.body, c.body) == Equal {
        assert b.body == c.body;
      }
    }
  }

  /** The order in which an update's `seen_by` iterates. */
  ghost function SeenByOrder<E, A(!new)>(cmpA: (A, A) -> Ordering, u: EthMsgUpdate<E, A>): (xs: seq<Signer<A>>)
    requires TotalOrder(cmpA)
  {
    SignerOrderIsTotal(cmpA);
    Sorted(SignerOrder(cmpA), u.seen_by)
  }

  /** Whatever order the signers arrived in, the update's `seen_by` iterates
      in the one ascending order of the signer set: the order in which the
      derived `Hash`, `PartialEq` and `Ord` walk `seen_by`. */
  lemma FromIteratesCanonically<E, A(!new)>(cmpA: (A, A) -> Ordering, m: MultiSignedEthEvent<E, A>, iteration: seq<Signer<A>>, ascending: seq<Signer<A>>)
    requires TotalOrder(cmpA)
    requires IsEnumeration(iteration, m.signers)
    requires Ascending(SignerOrder(cmpA), ascending)
    requires forall p :: p in ascending <==> p in m.signers
    ensures SeenByOrder(cmpA, FromMultiSigned(m, iteration)) == ascending
  {
    FromIgnoresIterationOrder(m, iteration, iteration);
    SignerOrderIsTotal(cmpA);
    SortedIsCanonical(SignerOrder(cmpA), m.signers, ascending);
  }
}
