/**
 * The two records of the contract: `Payload`, what a seller sends when
 * listing, and `Product`, what the catalog stores. A product is a payload
 * plus the account that listed it and the number of units sold.
 */
module Products {
  import opened Options

  const U32_MAX: nat := 0xFFFF_FFFF

  /** The `sold` counter's type, a `u32`. */
  type U32 = x: int | 0 <= x <= U32_MAX

  /** A NEAR account name. */
  type AccountId = string

  datatype Payload = Payload(
    id: string,
    name: string,
    description: string,
    image: string,
    location: string,
    price: string)

  datatype Product = Product(
    id: string,
    name: string,
    description: string,
    image: string,
    location: string,
    price: string,
    owner: AccountId,
    sold: U32)

  /** The fields of a product that come from the seller's payload. */
  function ListingOf(p: Product): Payload {
    Payload(p.id, p.name, p.description, p.image, p.location, p.price)
  }

  /**
   * `Product::from_payload`: every payload field is kept as sent, the owner
   * is the account that signed the call (never a field of the payload) and
   * nothing has been sold yet.
   */
  function FromPayload(payload: Payload, signer: AccountId): (r: Product)
    ensures ListingOf(r) == payload
    ensures r.owner == signer && r.sold == 0
  {
    Product(payload.id, payload.name, payload.description, payload.image,
            payload.location, payload.price, signer, 0)
  }

  /**
   * `Product::increment_sold_amount`: one more unit sold, nothing else
   * touched. `sold + 1` on a `u32` at its maximum panics (overflow checks
   * on), which is the `None` case.
   */
  function IncrementSoldAmount(p: Product): (r: Option<Product>)
    ensures r.Some? <==> p.sold < U32_MAX
    ensures r.Some? ==> r.value.sold == p.sold + 1
    ensures r.Some? ==> ListingOf(r.value) == ListingOf(p) && r.value.owner == p.owner
  {
    if p.sold < U32_MAX then Some(p.(sold := p.sold + 1)) else None
  }
}
