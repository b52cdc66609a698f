/**
 * What the contract promises about listing and buying, stated over the
 * transitions `ListStep` and `BuyStep` that the class's methods are proved
 * to perform.
 */
module MarketplaceProperties {
  import opened Options
  import opened Prices
  import opened Products
  import Catalog
  import opened Marketplace

  /**
   * Listing stores the product built from the payload under the payload's
   * id, stamped with the signer and a zero sale count; every other id keeps
   * its product and no transfer is made.
   */
  lemma ListStepStores(s: ContractState, payload: Payload, signer: AccountId)
    ensures var e := ListStep(s, payload, signer).listedProducts.entries;
      && payload.id in e
      && ListingOf(e[payload.id]) == payload
      && e[payload.id].owner == signer
      && e[payload.id].sold == 0
      && (forall k :: k != payload.id ==> (k in e <==> k in s.listedProducts.entries))
      && (forall k :: k != payload.id && k in e ==> e[k] == s.listedProducts.entries[k])
    ensures ListStep(s, payload, signer).transfers == s.transfers
  {
  }

  lemma ListStepConsistent(s: ContractState, payload: Payload, signer: AccountId)
    requires Consistent(s)
    ensures Consistent(ListStep(s, payload, signer))
  {
  }

  /**
   * Listing an id a second time replaces the first listing wholesale: the
   * state is as if only the second call had happened, whoever made either.
   * In particular the sale count goes back to zero and the owner changes.
   */
  lemma RelistForgetsEarlierListing(s: ContractState, first: Payload, second: Payload, a: AccountId, b: AccountId)
    requires first.id == second.id
    ensures ListStep(ListStep(s, first, a), second, b) == ListStep(s, second, b)
  {
  }

  /** Buying an id that is not listed fails with `NotFound` and changes nothing. */
  lemma BuyUnknownId(s: ContractState, id: string, deposit: U128)
    requires id !in s.listedProducts.entries
    ensures BuyStep(s, id, deposit) == (NotFound, s)
  {
  }

  /** A price that does not parse makes every purchase fail, changing nothing. */
  lemma BuyUnparsablePrice(s: ContractState, id: string, deposit: U128)
    requires id in s.listedProducts.entries
    requires ParseU128(s.listedProducts.entries[id].price).None?
    ensures BuyStep(s, id, deposit) == (BadPrice, s)
  {
  }

  /** Any deposit other than the price, by however little, fails and changes nothing. */
  lemma BuyWrongDeposit(s: ContractState, id: string, deposit: U128, price: U128)
    requires id in s.listedProducts.entries
    requires ParseU128(s.listedProducts.entries[id].price) == Some(price)
    requires deposit != price
    ensures BuyStep(s, id, deposit) == (PaymentMismatch, s)
  {
  }

  /** Every failed purchase leaves the catalog and the transfer log as they were. */
  lemma BuyFailureChangesNothing(s: ContractState, id: string, deposit: U128)
    ensures BuyStep(s, id, deposit).0 != Purchased ==> BuyStep(s, id, deposit).1 == s
  {
  }

  /**
   * A purchase goes through exactly when the product is listed, its price
   * parses to the deposit, and its counter can still grow.
   */
  lemma BuySucceedsIff(s: ContractState, id: string, deposit: U128)
    ensures BuyStep(s, id, deposit).0 == Purchased <==>
      && id in s.listedProducts.entries
      && ParseU128(s.listedProducts.entries[id].price) == Some(deposit)
      && s.listedProducts.entries[id].sold < U32_MAX
  {
  }

  /**
   * A purchase that goes through pays the deposit (the parsed price) to the
   * product's owner, in exactly one new transfer; the product gains one
   * sale and nothing else about it, any other product, or the listing
   * order changes.
   */
  lemma BuySuccessEffect(s: ContractState, id: string, deposit: U128)
    requires Consistent(s)
    requires BuyStep(s, id, deposit).0 == Purchased
    ensures var s' := BuyStep(s, id, deposit).1;
      var e, e' := s.listedProducts.entries, s'.listedProducts.entries;
      && id in e && id in e'
      && ParseU128(e[id].price) == Some(deposit)
      && s'.transfers == s.transfers + [Transfer(e[id].owner, deposit)]
      && e'[id].sold == e[id].sold + 1
      && ListingOf(e'[id]) == ListingOf(e[id])
      && e'[id].owner == e[id].owner
      && e'.Keys == e.Keys
      && (forall k :: k in e && k != id ==> e'[k] == e[k])
      && s'.listedProducts.keys == s.listedProducts.keys
  {
  }

  lemma BuyStepConsistent(s: ContractState, id: string, deposit: U128)
    requires Consistent(s)
    ensures Consistent(BuyStep(s, id, deposit).1)
  {
  }

  /** The state after `n` calls of `buyProduct(id)` with the same deposit. */
  function BuyRepeatedly(s: ContractState, id: string, deposit: U128, n: nat): ContractState
    decreases n
  {
    if n == 0 then s else BuyRepeatedly(BuyStep(s, id, deposit).1, id, deposit, n - 1)
  }

  function Repeat(t: Transfer, n: nat): (r: seq<Transfer>)
    ensures |r| == n && forall i :: 0 <= i < n ==> r[i] == t
  {
    if n == 0 then [] else [t] + Repeat(t, n - 1)
  }

  /** One purchase at the right price, as a whole new state. */
  lemma BuyOnce(s: ContractState, id: string, deposit: U128)
    requires id in s.listedProducts.entries && s.listedProducts.entries[id].id == id
    requires ParseU128(s.listedProducts.entries[id].price) == Some(deposit)
    requires s.listedProducts.entries[id].sold < U32_MAX
    ensures var p := s.listedProducts.entries[id];
      BuyStep(s, id, deposit)
      == (Purchased, ContractState(
            Catalog.Catalog(s.listedProducts.entries[id := p.(sold := p.sold + 1)], s.listedProducts.keys),
            s.transfers + [Transfer(p.owner, deposit)]))
  {
  }

  /**
   * `n` purchases at the right price raise the sale count by exactly `n`
   * and pay the owner `n` times; nothing else in the catalog changes.
   */
  lemma {:induction false} SoldCountsPurchases(s: ContractState, id: string, deposit: U128, n: nat)
    requires id in s.listedProducts.entries && s.listedProducts.entries[id].id == id
    requires ParseU128(s.listedProducts.entries[id].price) == Some(deposit)
    requires s.listedProducts.entries[id].sold + n <= U32_MAX
    ensures var p := s.listedProducts.entries[id];
      BuyRepeatedly(s, id, deposit, n)
      == ContractState(
           Catalog.Catalog(s.listedProducts.entries[id := p.(sold := p.sold + n)], s.listedProducts.keys),
           s.transfers + Repeat(Transfer(p.owner, deposit), n))
    decreases n
  {
    var e := s.listedProducts.entries;
    var p := e[id];
    var tr := Transfer(p.owner, deposit);
    if n == 0 {
      assert e[id := p.(sold := p.sold + 0)] == e;
      assert s.transfers + Repeat(tr, 0) == s.transfers;
    } else {
      BuyOnce(s, id, deposit);
      var q := p.(sold := p.sold + 1);
      var t := ContractState(Catalog.Catalog(e[id := q], s.listedProducts.keys), s.transfers + [tr]);
      assert BuyRepeatedly(s, id, deposit, n) == BuyRepeatedly(t, id, deposit, n - 1);
      SoldCountsPurchases(t, id, deposit, n - 1);
      assert q.(sold := q.sold + (n - 1)) == p.(sold := p.sold + n);
      assert e[id := q][id := p.(sold := p.sold + n)] == e[id := p.(sold := p.sold + n)];
      RepeatAfterOne(s.transfers, tr, n);
    }
  }

  lemma RepeatAfterOne(log: seq<Transfer>, t: Transfer, n: nat)
    requires n > 0
    ensures log + [t] + Repeat(t, n - 1) == log + Repeat(t, n)
  {
    assert [t] + Repeat(t, n - 1) == Repeat(t, n);
  }

  /**
   * After a listing followed by `n` purchases at the listed price, with no
   * relisting in between, the product shows `n` sales and its seller as
   * owner.
   */
  lemma ListedThenBought(s: ContractState, payload: Payload, seller: AccountId, deposit: U128, n: nat)
    requires ParseU128(payload.price) == Some(deposit)
    requires n <= U32_MAX
    ensures var e := BuyRepeatedly(ListStep(s, payload, seller), payload.id, deposit, n).listedProducts.entries;
      payload.id in e && e[payload.id].sold == n && e[payload.id].owner == seller
      && ListingOf(e[payload.id]) == payload
  {
    SoldCountsPurchases(ListStep(s, payload, seller), payload.id, deposit, n);
  }

  /**
   * Alice lists "a" at "100"; Bob pays 100 and the sale is counted and Alice
   * paid; Bob then pays 50 and the call fails with the state untouched.
   */
  lemma AliceAndBob()
    ensures var s0 := ListStep(Initial, Payload("a", "lamp", "brass", "lamp.png", "Lisbon", "100"), "alice");
      var (o1, s1) := BuyStep(s0, "a", 100);
      var (o2, s2) := BuyStep(s1, "a", 50);
      && s0.listedProducts.entries["a"].sold == 0
      && s0.listedProducts.entries["a"].owner == "alice"
      && s0.listedProducts.entries["a"].price == "100"
      && o1 == Purchased
      && s1.listedProducts.entries["a"].sold == 1
      && s1.listedProducts.entries["a"].owner == "alice"
      && s1.listedProducts.entries["a"].price == "100"
      && s1.transfers == [Transfer("alice", 100)]
      && o2 == PaymentMismatch && s2 == s1
  {
  }
}
