# NEAR marketplace contract, modelled in Dafny

This project models the `Marketplace` smart contract of NearMarketplaceDapp
(`near-marketplace-contract/src/lib.rs`). The contract keeps a catalog of
products keyed by product id. Anyone can list a product: it is built from a
`Payload`, stamped with the signing account as owner and a zero sale count,
and stored under its id, replacing any earlier product with that id. Anyone
can read one product or all of them. Anyone can buy a product by attaching a
deposit. The stored price string must parse as a `u128` and equal the deposit
exactly. The deposit is then transferred to the owner, and the product's `sold`
counter goes up by one.

Files:

- `options.dfy`: the `Option` datatype.
- `prices.dfy`: `str::parse::<u128>` as the library's checked digit loop
  (`Accumulate`, `ParseU128`), proved equal to the meaning of a u128 literal
  (`Denotation`), and inverse to decimal printing (`ToDecimal`).
- `products.dfy`: the `Payload` and `Product` records, `from_payload` and
  `increment_sold_amount`.
- `catalog.dfy`: the `UnorderedMap<String, Product>`, as a map plus the order
  of its key vector (a new key is appended, an existing key keeps its place,
  and nothing is ever removed).
- `marketplace.dfy`: the contract state (catalog plus the log of scheduled
  transfers), one pure transition function per mutating call (`ListStep`,
  `BuyStep`), and the class `Marketplace`, whose methods are proved to make
  exactly those transitions.
- `properties.dfy`: what listing and buying guarantee, stated over those
  transitions.

How calls and failures are modelled. A NEAR call either completes or panics,
and a panic discards the call's storage writes together with the promises it
created. So every failed `buyProduct` is a `BuyOutcome` other than
`Purchased`, with the catalog and the transfer log exactly as before. The
possible failures are: product not found, price does not parse (the `unwrap`
at line 39), deposit differs from the price (the `assert_eq!` at line 40), and
`sold + 1` overflows. The signer (`env::signer_account_id()`) and the
attached deposit (`env::attached_deposit()`) are method parameters.
`Promise::new(owner).transfer(price)` appends `Transfer(owner, price)` to the
log. The promise only goes out if the call completes, so the model appends it
once the last possible panic has been passed.

Overflow of `sold`. `sold` is a `u32` (line 74), and `self.sold + 1` (line 94)
panics at `u32::MAX` when overflow checks are on. NEAR contract templates turn
them on in the release profile, and the build profile is not part of this
model. The model treats the overflow as a panic (`SoldOverflow`), so it puts
no precondition on `buyProduct`.

Order of `getProducts`. Callers cannot rely on any order, but the code's
`UnorderedMap` returns values in the order of its key vector. Here that is the
order in which ids were first listed, because the contract never removes a
key. `Catalog.Values` keeps that order. `GetProducts` promises only what holds
for any order: one product per stored id, every stored product, and no others.

## Model

| member | source | states |
|---|---|---|
| Prices.ParseU128 | near-marketplace-contract/src/lib.rs:39 | the parse of the price string agrees on every string with the meaning of a u128 literal: an optional '+', then at least one digit and nothing else, with a value below 2^128; anything else is a failure |
| Prices.AccumulateMeaning | near-marketplace-contract/src/lib.rs:39 | the checked multiply-by-ten-and-add digit loop, started from the value of the digits already read, yields the value of all the digits, and fails exactly when a non-digit follows or that value exceeds 2^128-1 |
| Prices.ToDecimal | near-marketplace-contract/src/lib.rs:39 | the spelling a seller would give a price (no code in the contract prints numbers); the reference inverse of the parse at line 39: a non-empty run of digits, with no sign, whose value is the amount |
| Prices.ParseToDecimal | near-marketplace-contract/src/lib.rs:39 | every u128 amount written in decimal parses back to itself |
| Prices.ParseSkipsPlus | near-marketplace-contract/src/lib.rs:39 | one leading '+' is skipped: prefixing '+' to any string that is empty or does not itself start with '+' leaves its parse unchanged |
| Products.FromPayload | near-marketplace-contract/src/lib.rs:80-91 | the new product's listing fields are the payload's, verbatim; its owner is the signer and its sale count is 0 |
| Products.IncrementSoldAmount | near-marketplace-contract/src/lib.rs:93-95 | the sale count grows by exactly 1 and every other field is unchanged; at u32::MAX the increment fails |
| Catalog.Insert | near-marketplace-contract/src/lib.rs:24 | insert upserts the entry at the key and keeps the key vector duplicate-free and equal to the key set: a new key goes to the end, an existing key stays where it was |
| Catalog.Values | near-marketplace-contract/src/lib.rs:32 | the values vector has one element per key, in key order, and contains exactly the stored products |
| Marketplace.Marketplace.constructor | near-marketplace-contract/src/lib.rs:16-19 | init creates an empty catalog and an empty transfer log |
| Marketplace.Marketplace.SetProduct | near-marketplace-contract/src/lib.rs:22-25 | setProduct makes exactly the listing transition and keeps the catalog consistent |
| Marketplace.Marketplace.GetProduct | near-marketplace-contract/src/lib.rs:27-29 | getProduct returns nothing exactly when the id is not listed, and otherwise the stored product; it reads only |
| Marketplace.Marketplace.GetProducts | near-marketplace-contract/src/lib.rs:31-33 | getProducts returns as many products as there are ids, pairwise distinct, and a product is in the result exactly when it is stored |
| Marketplace.Marketplace.BuyProduct | near-marketplace-contract/src/lib.rs:35-50 | buyProduct makes exactly the purchase transition (lookup, parse, exact-deposit check, transfer, sale count, write back) and keeps the catalog consistent |
| MarketplaceProperties.ListStepStores | near-marketplace-contract/src/lib.rs:22-25 | after listing, the entry at the payload's id carries the payload's fields, the signer as owner and 0 sales; every other id is untouched and no transfer is made |
| MarketplaceProperties.ListStepConsistent | near-marketplace-contract/src/lib.rs:24 | listing keeps every product stored under its own id and the key vector well formed |
| MarketplaceProperties.RelistForgetsEarlierListing | near-marketplace-contract/src/lib.rs:24 | listing an id twice leaves the state as if only the second listing had happened, which resets sales to 0 and replaces the owner |
| MarketplaceProperties.BuyUnknownId | near-marketplace-contract/src/lib.rs:46-48 | buying an unlisted id fails as not found and changes neither catalog nor transfer log |
| MarketplaceProperties.BuyUnparsablePrice | near-marketplace-contract/src/lib.rs:39 | when the stored price does not parse, every purchase of that id fails and changes nothing |
| MarketplaceProperties.BuyWrongDeposit | near-marketplace-contract/src/lib.rs:40 | a deposit that differs from the parsed price by any amount fails the purchase and changes nothing |
| MarketplaceProperties.BuyFailureChangesNothing | near-marketplace-contract/src/lib.rs:35-50 | every purchase that does not succeed leaves catalog and transfer log unchanged |
| MarketplaceProperties.BuySucceedsIff | near-marketplace-contract/src/lib.rs:37-44 | a purchase succeeds exactly when the id is listed, its price parses to the deposit, and its sale count is below u32::MAX |
| MarketplaceProperties.BuySuccessEffect | near-marketplace-contract/src/lib.rs:41-44 | a successful purchase appends exactly one transfer, of the price, to the owner; the product gains one sale and nothing else about it, other products or the key order changes |
| MarketplaceProperties.BuyOnce | near-marketplace-contract/src/lib.rs:37-44 | a purchase at the parsed price of a product stored under its own id, below the u32 limit, succeeds; the new state is the old catalog with that product's sale count one higher (same key order), plus one transfer of the price to the owner |
| MarketplaceProperties.BuyStepConsistent | near-marketplace-contract/src/lib.rs:44 | a purchase writes the product back under the id it was found at, so every product stays stored under its own id |
| MarketplaceProperties.SoldCountsPurchases | near-marketplace-contract/src/lib.rs:43-44 | n purchases at the right price raise the sale count by exactly n and pay the owner n times, changing nothing else |
| MarketplaceProperties.ListedThenBought | near-marketplace-contract/src/lib.rs:87 | a listing followed by n purchases at the listed price shows n sales, the seller as owner and the payload's fields |
| MarketplaceProperties.AliceAndBob | near-marketplace-contract/src/lib.rs:22-50 | alice lists "a" at "100" and reads it back with owner alice, price "100" and 0 sales; bob's deposit of 100 counts one sale and pays alice 100; bob's later deposit of 50 fails and changes nothing |

## Left out

- The NEAR SDK code generation (`#[near_bindgen]`, `#[init]`, `#[payable]`, `PanicOnDefault`): its generated checks are not modelled. Each of them is a panic: a deposit attached to the non-payable `setProduct`, a second `init` when state already exists, and any call made before `init`. In the model `SetProduct` takes no deposit, and a `Marketplace` object exists only once its constructor has run.
- Borsh and serde serialization of `Product` and `Payload`, and the storage prefix `b"listed_products"` of the map: the catalog is a Dafny map plus its key order.
- `env::signer_account_id()` and `env::attached_deposit()` are method parameters. The signing account is taken to be already authenticated.
- Settlement of `Promise::transfer` on chain happens after the call and outside the contract. A transfer is modelled only as a record appended to the log.
- `owner.parse().unwrap()` into `AccountId` (line 42) is taken as the identity. The owner was stored from a valid `AccountId`, so that parse cannot fail.
- The panic messages are dropped. Only their kind survives, as `BuyOutcome`.
- Prices.ParseU128: does not keep the library's error kinds (empty, invalid digit, overflow). Every one of them ends in the same `unwrap` panic.
- Products.IncrementSoldAmount: the overflow of `sold + 1` at `u32::MAX` is modelled as a panic, as with overflow checks on. A build without overflow checks would wrap to 0 instead.
