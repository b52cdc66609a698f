/**
 * The `Marketplace` contract. Its persistent state is the catalog of listed
 * products; the transfers it asks the chain to make are kept beside it as a
 * log, so that the payment side of a purchase can be stated.
 *
 * NEAR runs every call to completion or panics, and a panic throws away the
 * call's storage writes and the promises it created. So each call is a
 * transition from one `ContractState` to the next, given here as a pure
 * function (`ListStep`, `BuyStep`), and the class's methods are proved to
 * make exactly that transition.
 */
module Marketplace {
  import opened Options
  import opened Prices
  import opened Products
  import Catalog

  /** A `Promise::new(owner).transfer(amount)` the contract has scheduled. */
  datatype Transfer = Transfer(receiver: AccountId, amount: U128)

  /** How a `buyProduct` call ended; every kind but `Purchased` is a panic. */
  datatype BuyOutcome =
    | Purchased
    | NotFound         // "product not found"
    | BadPrice         // the stored price does not parse: `unwrap` on `Err`
    | PaymentMismatch  // `assert_eq!` of the deposit and the price fails
    | SoldOverflow     // `sold + 1` overflows the `u32`

  datatype ContractState = ContractState(listedProducts: Catalog.Catalog, transfers: seq<Transfer>)

  /** The catalog is well formed and every product is stored under its own id. */
  ghost predicate Consistent(s: ContractState) {
    && Catalog.Valid(s.listedProducts)
    && forall k :: k in s.listedProducts.entries ==> s.listedProducts.entries[k].id == k
  }

  /** The state `init` creates: nothing listed, nothing paid. */
  const Initial := ContractState(Catalog.Empty, [])

  /** `setProduct(payload)` signed by `signer`. */
  function ListStep(s: ContractState, payload: Payload, signer: AccountId): ContractState {
    var product := FromPayload(payload, signer);
    s.(listedProducts := Catalog.Insert(s.listedProducts, product.id, product))
  }

  /** `buyProduct(id)` with `deposit` attached: the outcome and the state after the call. */
  function BuyStep(s: ContractState, id: string, deposit: U128): (BuyOutcome, ContractState) {
    if id !in s.listedProducts.entries then (NotFound, s)
    else
      var product := s.listedProducts.entries[id];
      match ParseU128(product.price)
      case None => (BadPrice, s)
      case Some(price) =>
        if deposit != price then (PaymentMismatch, s)
        else match IncrementSoldAmount(product)
          case None => (SoldOverflow, s)
          case Some(sold) =>
            (Purchased, ContractState(Catalog.Insert(s.listedProducts, sold.id, sold),
                                      s.transfers + [Transfer(product.owner, price)]))
  }

  class Marketplace {
    /** `listed_products`. */
    var listedProducts: Catalog.Catalog
    /** The transfers scheduled by the calls that completed, oldest first. */
    var transfers: seq<Transfer>

    function Snapshot(): ContractState
      reads this
    {
      ContractState(listedProducts, transfers)
    }

    ghost predicate Valid()
      reads this
    {
      Consistent(Snapshot())
    }

    /** `init`: an empty catalog. */
    constructor ()
      ensures Valid() && Snapshot() == Initial
    {
      listedProducts := Catalog.Empty;
      transfers := [];
    }

    /**
     * `setProduct`: build the product from the payload and the signer and
     * store it under its id, replacing whatever was there.
     */
    method SetProduct(payload: Payload, signer: AccountId)
      requires Valid()
      modifies this
      ensures Valid()
      ensures Snapshot() == ListStep(old(Snapshot()), payload, signer)
    {
      var product := FromPayload(payload, signer);
      listedProducts := Catalog.Insert(listedProducts, product.id, product);
    }

    /** `getProduct`: the product stored under `id`, if any. */
    function GetProduct(id: string): (r: Option<Product>)
      reads this
      ensures r.None? <==> id !in listedProducts.entries
      ensures r.Some? ==> id in listedProducts.entries && r.value == listedProducts.entries[id]
    {
      if id in listedProducts.entries then Some(listedProducts.entries[id]) else None
    }

    /** `getProducts`: every stored product, one per id. */
    function GetProducts(): (r: seq<Product>)
      reads this
      requires Valid()
      ensures |r| == |listedProducts.entries|
      ensures forall p :: p in r <==> p in listedProducts.entries.Values
      ensures forall i, j :: 0 <= i < j < |r| ==> r[i] != r[j]
    {
      var r := Catalog.Values(listedProducts);
      assert forall i :: 0 <= i < |r| ==> r[i].id == listedProducts.keys[i];
      r
    }

    /**
     * `buyProduct`: look the product up, parse its price, demand that the
     * deposit equals it, pay the owner, count the sale and store the product
     * back. Each check that fails panics, so the call leaves no trace.
     */
    method BuyProduct(productId: string, deposit: U128) returns (outcome: BuyOutcome)
      requires Valid()
      modifies this
      ensures Valid()
      ensures (outcome, Snapshot()) == BuyStep(old(Snapshot()), productId, deposit)
    {
      var found := GetProduct(productId);
      if found.None? {
        return NotFound;
      }
      var product := found.value;
      var parsed := ParseU128(product.price);
      if parsed.None? {
        return BadPrice;
      }
      var price := parsed.value;
      if deposit != price {
        return PaymentMismatch;
      }
      // The promise is created here, but NEAR only sends it if the call
      // completes, so it joins the log after the last possible panic.
      var promise := Transfer(product.owner, price);
      var incremented := IncrementSoldAmount(product);
      if incremented.None? {
        return SoldOverflow;
      }
      product := incremented.value;
      listedProducts := Catalog.Insert(listedProducts, product.id, product);
      transfers := transfers + [promise];
      outcome := Purchased;
    }
  }
}
