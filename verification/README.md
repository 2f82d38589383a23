# Seapedia: a verified model

Seapedia is a marketplace of four services - identity, catalog, commerce and search - that share no
database and keep each other up to date with events. Its hard promises are about whole runs: money and
units are conserved while sellers, buyers, drivers and an overdue job write the same tables; replicas
converge although events are repeated and reordered; a search rebuild loses no change while catalog keeps
moving; a revoked session stays out. This project models those parts in Dafny and proves the promises for
every input, every run and every delivery order.

Each service is modelled twice. A database is a value (`Commerce.Db`, `Catalog.Cat`, `Tokens.Auth`,
`Lease.Cluster`, `Search.Indices`) and each transaction a function on it that returns the committed state
or the error it was rolled back with; runs are sequences of such steps, and the laws are proved about all
runs. Beside it a class holds the same tables as fields, and its methods change them statement by statement
as the services do, undoing what they wrote when a later guard fails; each is proved to commit exactly what
the transaction function says.

| module | part of the system |
|---|---|
| `Prelude`, `Contracts` | results, sums over tables, the events the services exchange |
| `Pricing`, `Commerce` | discount codes, totals, and the commerce transactions |
| `CommerceMoney`, `CommerceStock`, `CommerceReplica`, `CommerceOrders`, `CommerceCheckout`, `CommerceCart`, `CommerceSync`, `Overdue` | laws over commerce runs |
| `CommerceOutcomes` | what each commerce transaction promises its caller: accepted when, refused why, leaving what |
| `CommerceSplit`, `CommerceOverlap` | commerce transactions that overlap |
| `CommerceService` | the commerce tables written in place |
| `Ratings`, `Catalog`, `CatalogLog`, `CatalogSales`, `CatalogReviews`, `CatalogOutcomes`, `CatalogService` | catalog, its event log, sales, stock model, reviews, and what each transaction promises |
| `EndToEnd` | commerce and catalog together |
| `Search`, `Rebuild`, `SearchService`, `Lock` | the search index, the rebuild, the writer lock |
| `Lease`, `LeaseService` | the cluster-wide rebuild lease |
| `Tokens`, `AuthService`, `Denylist` | refresh-token families (section 10.4 of RFC 6749), access-token expiry (section 4.1.4 of RFC 7519), revoked sessions |
| `Relay`, `Consumer` | outbox relay, retries, parking, inbox |

## What the proofs assume

- The laws over commerce runs are stated first for transactions one after the other. The database runs at its default
  isolation (services/commerce/src/db/index.ts:5-6), and some transactions write on the strength of a read they do not
  lock: `processOrder` (services/commerce/src/modules/orders/orders-seller.service.ts:176-198); `setStock`, whose lock a
  deletion does not take (services/commerce/src/modules/inventory/inventory.service.ts:21-51); `productDeleted`, whose
  sweep misses cart rows added after it (services/commerce/src/modules/catalog-sync/catalog-sync.service.ts:74-87); every
  writer of carts in services/commerce/src/modules/buyers/buyers-cart.service.ts, that is the healing in
  `getOrCreateCart` (27-55), `addItemToCart` (127-208), `updateCartItemQuantity` (210-250), `removeCartItem` (252-287)
  and `clearCart` (289-304); and `createOrder`, for the cart whose row and items it
  reads apart and then empties (services/commerce/src/modules/orders/orders-checkout.service.ts:126-149 and 320-325). `CommerceSplit` splits each into
  its read and its writes, and `CommerceOverlap` lets them overlap at will and proves that the laws hold throughout if
  and only if none of these writes goes through on a read that is no longer true. The other transactions recheck what
  they read in the statement that writes, or lock it, and are one step.
- Ids, and the names of indices, are never reused; a product never changes store (`home`). For commerce the
  latter is proved from the catalog log.
- Fees are not negative: the configuration gives no lower bound (services/commerce/src/config.ts:7-9).
- Search statements are about one instance, whose lock keeps event handling and rebuilds apart;
  `Rebuild.BulkWriteForgetsNewer` shows why.
- A rebuild creates its index and swaps within the lease time of its last renewal (`Lease.LateSwapIsDropped` shows
  why), and a request whose answer is lost has taken effect by the time the client goes on.
- The broker keeps a copy published to the parking exchange; unlike the relay, the consumer waits for no
  confirmation before it acknowledges.
- Every event is handled within the 30 days the catalog inbox remembers
  (services/catalog/src/db/setup.ts:19).

## Where the code falls short of its promise

Each of these is a lemma with the input, beside the condition under which the promise holds.

- A rebuild that crashes after its swap and before its release has its live index deleted by the next rebuild
  (`Lease.CrashAfterSwapLosesLive`), and one whose swap throws after moving the alias deletes it itself
  (`Lease.FailureAfterSwapDropsLive`); exact condition in `Lease.LiveIsLostIff`.
- A takeover that crashes before its drop, and a rebuild whose clean-up is refused, leave an index under the
  building alias (`Lease.CrashBeforeDropLeaksAnIndex`, `Lease.FailedCleanupLeaksAnIndex`; exact condition in
  `Lease.StrandingLosesTrack` and `Lease.TrackedThroughoutIff`).
- Overlapping transactions can put a returned order back on its way, give a tombstone stock or a place in a cart, mix two
  stores in a cart or an order or leave a cart none, lose units of an add, and sell one cart twice (`CommerceSplit`; exact condition in
  `CommerceOverlap.OverlapsKeepLawsIff`, for units in `CommerceSplit.AddWritesUnitsIff` and for the second sale in
  `CommerceSplit.SplitCheckoutSellsTwice`).
- Commerce forgets the deletion of a product it has not seen (`CommerceSync.DeletionBeforeUpsertIsLost`; exact
  condition in `CommerceSync.DeliveryOrderIrrelevant`).
- A rebuilt index has no tombstones, so a late upsert can bring a deleted product back
  (`Rebuild.UnsafeDeliveryResurrects`; exact condition in `Rebuild.RisenIff` and `Rebuild.SearchConverges`).
- An access token signed by `onboard` after a revocation may outlive the horizon
  (`Denylist.LateTokenOutlivesHorizon`; exact condition in `Denylist.AcceptedAgainIff`).
- A crash between parking and acknowledging parks a message twice (`Consumer.CrashParksTwice`; exact condition in
  `Consumer.ParkedAtMostOnceIff`).
- A stored rating average may differ from the rounded true average (`Ratings.StoredMayDifferFromTrue`), first at
  the seventh rating (`Ratings.StoredIsTrueUpToSix`).
- Documentation and code disagree twice, and the code is followed: docs/BUSINESS-RULES.md:158 says the better
  of a voucher and a promo is applied when both are given, but a checkout takes one code and tries vouchers
  first; the repository's README.md:182-184 speaks of delivery deadlines in days, the constants are 2, 24 and 48 hours
  (services/commerce/src/modules/admin/admin.constants.ts:1-5).

## Model

| member | source | states |
|---|---|---|
| CommerceMoney.MoneyConserved | services/commerce/src/modules/buyers/buyers.service.ts:43-71 | In every state any run of transactions can reach, each balance is at least zero and equals the sum of its ledger entries; all top-ups together equal all balances plus the totals of all orders not returned, and the same holds buyer by buyer; an order has one refund entry if it is returned and none otherwise |
| CommerceMoney.PaymentKeepsMoney | services/commerce/src/modules/orders/orders-checkout.service.ts:230-262 | A payment moves the order total from the balance into the order and nowhere else, whatever else the checkout writes |
| CommerceMoney.RefundKeepsMoney | services/commerce/src/modules/admin/admin.service.ts:255-285 | A refund gives back exactly what the order took, to the buyer who paid, once |
| CommerceService.Database.GetOrCreateWallet | services/commerce/src/modules/buyers/buyers.service.ts:31-41 | A missing wallet is opened empty; an existing one is untouched |
| CommerceService.Database.DirectTopUp | services/commerce/src/modules/buyers/buyers.service.ts:43-71 | The ledger row and the balance change by the same amount, for a buyer without a wallet too; no other table changes |
| CommerceService.Database.Refund | services/commerce/src/modules/admin/admin.service.ts:255-285 | Credits the buyer and records the refund entry of that order, opening a missing wallet first |
| CommerceOutcomes.DepositsAreKept | services/commerce/src/modules/buyers/buyers.service.ts:43-71 | Over every run, all a buyer asked to pay in is the balance now plus the totals of the orders placed and not returned |
| CommerceCheckout.CheckoutIsOneShot | services/commerce/src/modules/orders/orders-checkout.service.ts:111-328 | In every coherent state the guarded, step by step checkout succeeds if and only if address, cart, code, balance and the stock of every cart item suffice, and then its result is one simultaneous change: every ordered product loses its quantity and gains one version, and wallet, ledger, voucher, order and cart change as stated, nothing else |
| CommerceCheckout.ReserveIsPointwise | services/commerce/src/modules/orders/orders-checkout.service.ts:190-228 | The guarded decrement loop over sorted items fails exactly when some item lacks stock in the state before the loop, and otherwise equals pointwise subtraction with one announcement per item |
| CommerceCheckout.PreviewMatchesCheckout | services/commerce/src/modules/orders/orders-checkout.service.ts:33-109 | When a checkout succeeds, the preview on the same state shows the lines, subtotal, discount, code, fee, tax and total that the order then has |
| CommerceCheckout.PreviewRefusesAlike | services/commerce/src/modules/orders/orders-checkout.service.ts:62-69 | A code that the preview refuses the checkout refuses with the same error |
| CommerceOutcomes.CheckoutAccepted | services/commerce/src/modules/orders/orders-checkout.service.ts:111-244 | On reachable carts a checkout goes through if and only if the address is the buyer's, the cart is not empty, the code is not refused, the wallet holds the total the preview shows and the stock covers every item; otherwise a foreign address is not found, a refused code gives the error of the preview, and the rest is invalid |
| CommerceOutcomes.CheckoutLeaves | services/commerce/src/modules/orders/orders-checkout.service.ts:181-328 | Then the order has the buyer, the store, the delivery, the time, and every line and figure the preview shows; the wallet and the ledger move by its total, one usage of the voucher is gone, each product loses what was in the cart and gains a version, the cart is empty, and no other table changes |
| CommerceOutcomes.PreviewIsBill | services/commerce/src/modules/orders/orders-checkout.service.ts:33-109 | The preview shows one line per item at the name and price of now; the subtotal is the sum of price times quantity over the cart; the discount is what the code grants on it, none without a code; a refused code is not found if unknown and invalid otherwise; an empty cart shows zeros whatever the code |
| CommerceCheckout.VoucherUsageConserved | services/commerce/src/modules/discounts/discounts.service.ts:91-105 | Over any run, the remaining usage of each voucher plus the orders that used it stays constant, and the remaining usage never goes below zero |
| CommerceCheckout.CreateVoucherIssues | services/commerce/src/modules/discounts/discounts.service.ts:108-126 | A new voucher starts with no order against it and its whole usage left |
| Pricing.PpnIsNearest | services/commerce/src/modules/orders/orders-checkout.service.ts:28 | Twelve percent of a whole amount is never half way between two integers; the tax is within 48 hundredths of it and every other integer is at least 52 away |
| Pricing.TotalGrowsWithTaxBase | services/commerce/src/modules/orders/orders-checkout.service.ts:22-31 | A larger tax base always gives a strictly larger total |
| Pricing.DiscountWithinSubtotal | services/commerce/src/modules/discounts/discounts.service.ts:16-88 | Whatever kind of code applies, the discount lies between zero and the subtotal |
| Pricing.CodeAppliesIff | services/commerce/src/modules/discounts/discounts.service.ts:16-88 | A code can yield a voucher exactly when it names that voucher, ignoring case and surrounding blanks, and the voucher is unexpired, not used up and within its minimum; and a promo exactly when it names no voucher but names that promo, unexpired and within its minimum; whichever matching row the unordered query returns |
| Pricing.CodeRefusedIff | services/commerce/src/modules/discounts/discounts.service.ts:16-88 | A code is unknown exactly when it names nothing, and is accepted whichever row is returned if it names a voucher and every voucher it names grants it |
| Pricing.CodeNamesIff | services/commerce/src/modules/discounts/discounts.service.ts:17-26 | A typed code names exactly the codes that differ from it in the case of letters and in blanks around it |
| Pricing.RefusalReasonIff | services/commerce/src/modules/discounts/discounts.service.ts:28-74 | The reason given for a refusal is expiry, then usage, then the minimum, whichever applies first to a row the code names |
| Pricing.DiscountIsLargestAllowed | services/commerce/src/modules/discounts/discounts.service.ts:42-77 | The discount is the largest amount its row allows: at most the voucher, or the percentage and the cap of the promo, and at most the cart |
| Pricing.TotalIsTaxedRemainder | services/commerce/src/modules/orders/orders-checkout.service.ts:22-31 | The delivery fee is the one configured for that delivery; tax is on what the discount leaves of the cart plus the fee, and a hundred totals are within 48 of 112 times that |
| Pricing.TotalNeverFallsAsSubtotalGrows | services/commerce/src/modules/orders/orders-checkout.service.ts:157-179 | A code that applies to a subtotal applies to every larger one, and a larger subtotal under it never has a smaller total |
| CommerceService.Database.SubtotalOf | services/commerce/src/modules/orders/orders-checkout.service.ts:152-155 | The accumulating loop gives the sum of price times quantity over all lines |
| CommerceService.Database.PreviewCheckout | services/commerce/src/modules/orders/orders-checkout.service.ts:33-109 | The preview opens or heals the cart and otherwise changes nothing; an empty cart previews as zeros and a bad code is an error |
| CommerceService.Database.TakeStock | services/commerce/src/modules/orders/orders-checkout.service.ts:190-226 | The in-place decrement loop fails at the first item without stock; when it succeeds, the rows it wrote and the changes it collected are the guarded reservation of those items |
| CommerceService.Database.Charge | services/commerce/src/modules/orders/orders-checkout.service.ts:181-244 | Either the balance and every stock row suffice and all are debited with their events, or wallet, stock and outbox are as before |
| CommerceService.Database.RecordOrder | services/commerce/src/modules/orders/orders-checkout.service.ts:246-324 | Voucher, ledger, order with its lines and history, and cart end as a paid order leaves them |
| CommerceService.Database.CreateOrder | services/commerce/src/modules/orders/orders-checkout.service.ts:111-328 | Commits exactly the checkout transaction or, for every failing guard, the right error with every table as it was; the id returned is the new order |
| CommerceService.CheckoutIsQuoteAndCharge | services/commerce/src/modules/orders/orders-checkout.service.ts:157-228 | A checkout is its read-only quote followed by one charge that succeeds if and only if balance and stock suffice; a voucher that validated still has usage left |
| CommerceService.Database.DecrementVoucherUsage | services/commerce/src/modules/discounts/discounts.service.ts:91-105 | Succeeds if and only if usage was left, and then takes exactly one |
| CommerceService.Database.AddVoucher | services/commerce/src/modules/discounts/discounts.service.ts:108-126 | A second voucher with the same code is refused and changes nothing |
| CommerceService.Database.AddPromo | services/commerce/src/modules/discounts/discounts.service.ts:141-159 | A second promo with the same code is refused and changes nothing |
| CommerceReplica.ReplicaInvariant | services/commerce/src/modules/buyers/buyers-cart.service.ts:127-304 | In every state that transactions reach one after the other a stock row exists exactly for live replicated products, nothing is both pending and replicated, each seller has one store, and every cart holds distinct stocked products of its one store in positive quantities; for overlapping transactions see CommerceOverlap.OverlapsKeepLawsIff |
| CommerceCart.AddingAddsUnits | services/commerce/src/modules/buyers/buyers-cart.service.ts:127-208 | Adding adds exactly the asked units of one product, never beyond its stock, keeps the cart to that product's store, and touches no other product or cart |
| CommerceCart.SettingSetsUnits | services/commerce/src/modules/buyers/buyers-cart.service.ts:210-250 | Setting leaves exactly the asked units, within stock, and touches nothing else |
| CommerceCart.RemovingTakesUnits | services/commerce/src/modules/buyers/buyers-cart.service.ts:252-287 | Removing takes all units of one product, and the last removal frees the cart for any store |
| CommerceCart.RemoveUndoesAdd | services/commerce/src/modules/buyers/buyers-cart.service.ts:127-287 | Adding a product that was not there and removing it gives back the same units of everything |
| CommerceOutcomes.AddItemIff | services/commerce/src/modules/buyers/buyers-cart.service.ts:127-208 | On reachable carts an add is accepted if and only if the quantity is positive, the replica is in step, the product is stocked, the cart is of its store or of none, and the stock covers what is then in the cart; a missing product is not found, another store or a replica out of step a conflict, anything else invalid |
| CommerceOutcomes.SetQuantityIff | services/commerce/src/modules/buyers/buyers-cart.service.ts:210-250 | A quantity can be set if and only if it is positive, the product is in the cart and its stock covers it; the cart keeps its store |
| CommerceOutcomes.RemoveItemIff | services/commerce/src/modules/buyers/buyers-cart.service.ts:252-287 | Exactly what is in the cart can be removed, and the cart keeps its store as long as something is left |
| CommerceOutcomes.OpenCartLeaves | services/commerce/src/modules/buyers/buyers-cart.service.ts:27-55 | A cart with items is left as it is, any other empty and of no store; nobody else's moves |
| CommerceService.Database.GetOrCreateCart | services/commerce/src/modules/buyers/buyers-cart.service.ts:27-55 | Creates a missing cart and clears the store of one that lost its last item; other carts are untouched |
| CommerceService.Database.AddItemToCart | services/commerce/src/modules/buyers/buyers-cart.service.ts:127-208 | Commits the add or leaves every cart as it was with the error of the first failing check: quantity, replication, product, stock, other store, accumulated stock |
| CommerceService.Database.UpdateCartItemQuantity | services/commerce/src/modules/buyers/buyers-cart.service.ts:210-250 | Sets the quantity of an item of the own cart within stock, or fails without change |
| CommerceService.Database.RemoveCartItem | services/commerce/src/modules/buyers/buyers-cart.service.ts:252-287 | Removes the item and frees the cart from its store when it was the last |
| CommerceService.Database.ClearCartOf | services/commerce/src/modules/buyers/buyers-cart.service.ts:289-304 | Empties an existing cart and its store; a missing cart stays missing |
| CommerceSync.TombstoneForever | services/commerce/src/modules/catalog-sync/catalog-sync.service.ts:54-87 | Once a product is tombstoned, no run of events, stock settings, cart changes or orders, one after the other, revives it or recreates its stock, its pending stock or a cart row; for overlapping transactions see CommerceOverlap.OverlapsKeepLawsIff |
| CommerceSync.RefIsFoldOfDeliveries | services/commerce/src/modules/catalog-sync/catalog-sync.service.ts:45-87 | Whatever else happens in between, a product row depends only on the sequence of its own events that were handled |
| CommerceSync.RefCharacterised | services/commerce/src/modules/catalog-sync/catalog-sync.service.ts:45-87 | For every delivery sequence: a row exists if and only if an upsert came; it is a tombstone if and only if the deletion came at some point after an upsert; otherwise it is the newest upsert |
| CommerceSync.DeliveryOrderIrrelevant | services/commerce/src/modules/catalog-sync/catalog-sync.service.ts:45-112 | Two delivery orders of the same events end in the same visible row if and only if both, or neither, deliver the deletion at some point after an upsert |
| CommerceSync.DeletionBeforeUpsertIsLost | services/commerce/src/modules/catalog-sync/catalog-sync.service.ts:77-82 | The condition is needed: a deletion delivered before any upsert is dropped, and the late upsert leaves the deleted product live |
| CommerceSync.TombstonesKeepStaleFields | services/commerce/src/modules/catalog-sync/catalog-sync.service.ts:77-82 | Comparing whole rows would be too much: a tombstone keeps the name of whichever upsert came before it |
| CommerceSync.StoreIsNewestHandled | services/commerce/src/modules/catalog-sync/catalog-sync.service.ts:89-100 | Whatever the delivery order and whatever else happens, a store row is the newest event of that store handled |
| CommerceSync.PendingIsLastSet | services/commerce/src/modules/inventory/inventory.service.ts:29-34 | Until a product replicates, what is pending for it is the last stock anyone set |
| CommerceSync.ArrivalAppliesPending | services/commerce/src/modules/catalog-sync/catalog-sync.service.ts:11-35 | On arrival the pending value becomes the stock, with its event, if and only if its seller owns the store; nothing stays pending |
| CommerceSync.StockAndArrivalCommute | services/commerce/src/modules/inventory/inventory.service.ts:18-54 | For the owner of the store, setting the stock before or after the product replicates ends in the same state |
| CommerceService.Database.ApplyPendingStock | services/commerce/src/modules/catalog-sync/catalog-sync.service.ts:11-35 | Drops the pending row, and writes and announces the stock only for the owner of the store |
| CommerceService.Database.ProductUpserted | services/commerce/src/modules/catalog-sync/catalog-sync.service.ts:45-72 | Commits the version-guarded replica write with stock row and pending stock; stale events change nothing, a missing store is retried, a tombstone stays |
| CommerceService.Database.ProductDeleted | services/commerce/src/modules/catalog-sync/catalog-sync.service.ts:74-87 | Tombstones a known older row and removes its cart items, stock and pending stock; otherwise changes nothing |
| CommerceService.Database.StoreUpserted | services/commerce/src/modules/catalog-sync/catalog-sync.service.ts:89-100 | Writes a newer store and nothing else; a seller that already has another store makes the event retry |
| CommerceOutcomes.ProductEventIff | services/commerce/src/modules/catalog-sync/catalog-sync.service.ts:45-72 | A product event waits for its store and is dropped if the row is as new; otherwise the row says name, slug, price and image of the event, a tombstone stays one, and a live product has its stock row, with what the owner of its store had set before |
| CommerceOutcomes.DeletionEventLeaves | services/commerce/src/modules/catalog-sync/catalog-sync.service.ts:74-87 | A deletion turns an older row into a tombstone at its version and takes the product out of stock, out of what is pending and out of every cart; an unseen product or old news changes nothing |
| CommerceOutcomes.StoreEventIff | services/commerce/src/modules/catalog-sync/catalog-sync.service.ts:89-100 | A store event is applied unless it is old news, and fails if and only if another store has that seller |
| CommerceSplit.ProcessWritesIff | services/commerce/src/modules/orders/orders-seller.service.ts:176-211 | The writes of processOrder on a later state keep the lifecycle if and only if the order is still being packed then |
| CommerceSplit.SplitProcessingRevivesReturns | services/commerce/src/modules/orders/orders-seller.service.ts:176-211 | An overdue return between read and write: every such refunded order is on its way again, off the lifecycle |
| CommerceSplit.StockWritesIff | services/commerce/src/modules/inventory/inventory.service.ts:39-51 | The stock upsert on a later state keeps replicas coherent if and only if the product is still live then |
| CommerceSplit.SplitStockSettingRevivesStock | services/commerce/src/modules/catalog-sync/catalog-sync.service.ts:74-87 | A deletion between the read and the write of a stock setting: the tombstone has stock again, announced as version 1 |
| CommerceSplit.AddIsGuardsAndWrites | services/commerce/src/modules/buyers/buyers-cart.service.ts:127-208 | An add to the cart is its guards followed by the writes on the same state |
| CommerceSplit.AddWritesIff | services/commerce/src/modules/buyers/buyers-cart.service.ts:166-206 | Those writes on a later state keep carts coherent if and only if they update a row without setting the store, or the cart is then of the product's store or as empty as it was seen and a product inserted is still live |
| CommerceSplit.SplitAddsMixStores | services/commerce/src/modules/buyers/buyers-cart.service.ts:145-206 | Two adds that both saw an empty cart leave products of two stores in it |
| CommerceSplit.SplitAddOutlivesDeletion | services/commerce/src/modules/buyers/buyers-cart.service.ts:139-206 | A deletion between read and write leaves a tombstone in the cart |
| CommerceSplit.SplitAddLosesStore | services/commerce/src/modules/buyers/buyers-cart.service.ts:163-206 | The removal of the last item between read and write leaves an item in a cart of no store, which no checkout takes |
| CommerceSplit.AddWritesUnitsIff | services/commerce/src/modules/buyers/buyers-cart.service.ts:166-191 | The writes of an add put exactly the asked units into the cart if and only if the row then holds the quantity that was read |
| CommerceSplit.SplitAddsLoseUnits | services/commerce/src/modules/buyers/buyers-cart.service.ts:166-191 | Two adds of one product that read the row alike leave the units of only one of them |
| CommerceSplit.ClearWritesIff | services/commerce/src/modules/buyers/buyers-cart.service.ts:252-304 | Taking the store off a cart by its id, as a removal, a clear, the healing and a checkout do, keeps carts coherent if and only if no row is left in the cart by then |
| CommerceSplit.SplitHealLosesStore | services/commerce/src/modules/buyers/buyers-cart.service.ts:27-55 | A whole add between the check and the write of the healing: an item in a cart of no store, which no checkout takes |
| CommerceSplit.StorelessCartMixesStores | services/commerce/src/modules/buyers/buyers-cart.service.ts:158-206 | Such a cart accepts the product of any store next to what it holds |
| CommerceSplit.DeletionWritesIff | services/commerce/src/modules/catalog-sync/catalog-sync.service.ts:74-87 | The writes of a deletion keep replicas and carts coherent if and only if every cart that then holds the product was swept, or the deletion is too old to do anything |
| CommerceSplit.SplitDeletionMissesAdd | services/commerce/src/modules/catalog-sync/catalog-sync.service.ts:74-87 | A whole add between the sweep of the carts and the end of a deletion leaves the tombstone in a cart |
| CommerceSplit.DropWritesKeepReplica | services/commerce/src/modules/buyers/buyers-cart.service.ts:252-287 | The removal of a row that saw others beside it keeps carts coherent whatever happened in between |
| CommerceSplit.QuantityWritesKeepReplica | services/commerce/src/modules/buyers/buyers-cart.service.ts:210-250 | So does a new quantity for a row that may be gone |
| CommerceSplit.SplitCheckoutSellsTwice | services/commerce/src/modules/orders/orders-checkout.service.ts:126-244 | Two checkouts that read the same cart both go through if and only if balance, stock and voucher suffice for both orders |
| CommerceOverlap.WritesKeepLawsIff | services/commerce/src/modules/buyers/buyers-cart.service.ts:27-304 | Any such write, on any later state, keeps replicas, carts, orders, jobs, money, stock and vouchers right if and only if what it read still holds |
| CommerceOverlap.CheckingOutIff | services/commerce/src/modules/orders/orders-checkout.service.ts:126-325 | A checkout that read cart, items and code at any earlier points rechecks balance, stock and voucher as it writes, so it keeps every law if and only if the cart named one store both times and it leaves no row in the cart |
| CommerceOverlap.CheckingOutTogether | services/commerce/src/modules/orders/orders-checkout.service.ts:111-328 | Reading and writing at one point it is the whole checkout |
| CommerceOverlap.OthersTogether | services/commerce/src/modules/buyers/buyers-cart.service.ts:27-304 | So is every other such write: reading and writing at one point it is the whole transaction, a removal being a drop while something is left and an emptying when nothing is |
| CommerceOverlap.CheckoutOfTwoStores | services/commerce/src/modules/orders/orders-checkout.service.ts:126-149 | A cart cleared and refilled between the two reads gives an order of one store with the products of another |
| CommerceOverlap.CheckingOutOrdersWhatWasRead | services/commerce/src/modules/orders/orders-checkout.service.ts:126-325 | It orders exactly the units that were in the cart when it was read; what was added since is neither ordered nor left in the cart |
| CommerceOverlap.OverlapsKeepLawsIff | services/commerce/src/modules/orders/orders-checkout.service.ts:111-328 | Over every run in which transactions overlap in any way, each of their reads seeing what was committed by then, all laws of commerce hold at every moment if and only if no write goes through on a read that is no longer true |
| CommerceStock.StockInvariant | services/commerce/src/modules/inventory/inventory.service.ts:39-51 | In every reachable state stock is never negative, and the announcements of each product are its versions 1, 2, 3 and so on without gap or repeat, ending in the row held now |
| CommerceStock.UnitsConserved | services/commerce/src/modules/orders/orders-checkout.service.ts:191-228 | Over any stretch of a run during which a product stays stocked, shelf units plus units in orders not returned change only by what the seller set |
| CommerceStock.StepConservesUnits | services/commerce/src/modules/admin/admin.service.ts:287-310 | The same for each single transaction: checkouts and returns only move units between shelf and orders |
| CommerceOutcomes.SetStockIff | services/commerce/src/modules/inventory/inventory.service.ts:18-54 | The stock of a replicated product is set by the seller of its store and by nobody else; a tombstone is not found, another seller forbidden; before it arrives the wish is kept |
| CommerceService.Database.SetStockOf | services/commerce/src/modules/inventory/inventory.service.ts:18-54 | Keeps stock for a product still replicating, refuses deleted products and foreign sellers, else writes and announces the next version |
| CommerceService.Database.RestoreStock | services/commerce/src/modules/admin/admin.service.ts:287-310 | The restock loop puts back and announces the units of each product still stocked, and reports the units of every line that names a product |
| CommerceOrders.LifecycleInvariant | services/commerce/src/modules/orders/orders-seller.service.ts:176-211 | In every reachable state the history of each order is a path of the lifecycle ending in its status, its job is at the matching stage, its lines are distinct products of its store, and exactly one completion event is announced if it is completed and none otherwise |
| CommerceOrders.JobsFollowOrders | services/commerce/src/modules/driver/driver.service.ts:78-139 | A job is completed if and only if its order is, a taken job means under way or returned, a pending one waiting or returned, and a job has a driver exactly from being taken on |
| CommerceOrders.OnlyTheTakerCompletes | services/commerce/src/modules/driver/driver.service.ts:78-139 | A job is completed by the driver who took it and by nobody else, and cannot be taken twice |
| CommerceOutcomes.ProcessOrderIff | services/commerce/src/modules/orders/orders-seller.service.ts:165-211 | Exactly the seller of the order's store hands it over, while it is being packed, with a job for its delivery fee; it is a conflict later and not found for anyone else |
| CommerceOutcomes.TakeJobIff | services/commerce/src/modules/driver/driver.service.ts:78-101 | A driver gets a job if and only if its order waits for one |
| CommerceOutcomes.CompleteJobIff | services/commerce/src/modules/driver/driver.service.ts:103-172 | A job is completed by the driver who has it and nobody else, while its order is on its way; buyer, products and quantities are announced with it |
| CommerceOrders.EarningsAreCompletedFees | services/commerce/src/modules/driver/driver.service.ts:141-172 | Earnings summed over all drivers equal the delivery fees of the completed orders |
| CommerceService.Database.ProcessOrderOf | services/commerce/src/modules/orders/orders-seller.service.ts:165-211 | Commits the step from packing to waiting with its job, or fails for a foreign, missing or later order with nothing changed |
| CommerceService.Database.TakeDeliveryJob | services/commerce/src/modules/driver/driver.service.ts:78-101 | Job and order move together: if the order is not waiting, the job already written is rolled back |
| CommerceService.Database.CompleteDeliveryJob | services/commerce/src/modules/driver/driver.service.ts:103-139 | Only the driver who took the job completes it; job, order and the one completion event change together or not at all |
| Overdue.RerunFindsOnlyFailures | services/commerce/src/modules/admin/admin.service.ts:204-228 | After a pass, what is still overdue at the same effective time is exactly what its failed transactions left; with none failed a rerun finds nothing |
| Overdue.ReportedRefundsAreCredits | services/commerce/src/modules/admin/admin.service.ts:255-327 | Over any interleaving of any number of passes with anything else, the refunds credited to wallets are the refunds reported, one for one and in order |
| Overdue.ReturnedIffReportedOnce | services/commerce/src/modules/admin/admin.service.ts:228-323 | Over any run an order is reported once if it ends returned and never otherwise |
| Overdue.FinalForever | services/commerce/src/modules/admin/admin.service.ts:236-239 | A completed or returned order never changes again |
| Overdue.ProcessedIsNeverListedAgain | services/commerce/src/modules/admin/admin.service.ts:210-240 | An order a pass has handled is final and on no later list, at any effective time |
| Overdue.OverdueStaysOverdue | services/commerce/src/modules/admin/admin.service.ts:160-202 | Until it is reset, the simulated clock never runs back and stays within 240 hours, so an order once overdue stays overdue until it is final |
| Overdue.OverdueListIs | services/commerce/src/modules/admin/admin.service.ts:210-222 | The list is exactly the orders neither completed nor returned that are older than 7,200,000 (instant), 86,400,000 (next day) or 172,800,000 (regular) milliseconds, each once |
| Overdue.PassReports | services/commerce/src/modules/admin/admin.service.ts:228-323 | A pass reports exactly the orders of its list that it could return, once each, with buyer, total and units put back |
| CommerceOutcomes.ReturnOrderIff | services/commerce/src/modules/admin/admin.service.ts:230-313 | An order is returned if and only if it is neither completed nor returned; the buyer gets the whole total and each stocked product its units |
| Overdue.SystemTime.SimulateTime | services/commerce/src/modules/admin/admin.service.ts:160-202 | Zero resets the offset, anything else adds 3600 seconds an hour, and the result is capped at 864,000 seconds |
| CommerceService.Database.ReturnOverdue | services/commerce/src/modules/admin/admin.service.ts:228-319 | One order marked, refunded and restocked together with the report of exactly that, or skipped unchanged once it is final |
| CommerceService.Database.TryReturn | services/commerce/src/modules/admin/admin.service.ts:226-327 | A transaction that breaks is rolled back and yields no report |
| CommerceService.Database.ProcessOverdueOrders | services/commerce/src/modules/admin/admin.service.ts:204-333 | The loop over the list read at its start ends in the state and the reports of one pass, whichever of its transactions fail |
| CommerceService.Database.ServeAll | services/commerce/src/modules/orders/orders-checkout.service.ts:111-328 | A service started empty and asked anything in any order keeps money, stock, orders and replicas consistent |
| CatalogLog.LogInvariant | services/catalog/src/modules/events/events.ts:38-77 | Over every run the event log only grows and accounts for the tables: one event per version of an entity, the current version of every store and product logged, and for everything gone exactly one deletion above all its upserts |
| CatalogLog.ReviewKeepsLog | services/catalog/src/modules/product-reviews/product-reviews.repo.ts:20-31 | The two rating writes of a review each bump their version, so the events they enqueue are new to the log and it stays a complete account of products and stores |
| CatalogLog.AdjustKeepsLog | services/catalog/src/modules/products/products.repo.ts:149-154 | A change of the product count is a new version of its store, if there is one, and the log with its event stays a complete account |
| CatalogSales.SalesCountedOnce | services/catalog/src/modules/events/consumers.ts:41-65 | Under any repetition and order of deliveries, interleaved with sellers and reviewers, the sold count of a product grows by exactly the units of the distinct completions delivered |
| CatalogSales.PurchasesInvariant | services/catalog/src/modules/events/consumers.ts:50-56 | Purchases are exactly the buyer and product pairs of the delivered completions |
| CatalogSales.StockModelInvariant | services/catalog/src/modules/events/consumers.ts:31-37 | The stock shown for a product is always the initial nothing or a pair that commerce really held and announced |
| CatalogSales.StockNeverMovesBack | services/catalog/src/modules/events/consumers.ts:31-37 | While a product exists its stock version only grows, past every announcement handed over meanwhile |
| CatalogReviews.ReviewsInvariant | services/catalog/src/modules/product-reviews/product-reviews.service.ts:15-73 | In every reachable state each review count is the number of review rows, each row is by a distinct buyer with a recorded purchase, and each stored average, of products and of stores, tracks exactly those ratings |
| CatalogReviews.CountsInvariant | services/catalog/src/modules/products/products.repo.ts:149-154 | In every reachable state the product count of a store is the number of its products |
| Ratings.ReviewKeepsTrack | services/catalog/src/modules/product-reviews/product-reviews.service.ts:10-12 | After n ratings the stored average lies between 1.00 and 5.00 stars, is within (n(n+1)-2)/4 hundredths of the true sum when scaled by n, and is exact when all ratings are equal, whichever way ties are rounded |
| Ratings.StoredIsTrueUpToSix | services/catalog/src/modules/product-reviews/product-reviews.service.ts:10-12 | For up to six ratings the stored average is the rounded true average, and for one, two, four or five it is the true average itself |
| Ratings.StoredMayDifferFromTrue | services/catalog/src/modules/product-reviews/product-reviews.service.ts:10-12 | With seven it may not be: after 1,1,1,1,1,2,1 the stored average is not the rounded true average |
| CatalogService.AddToAverage | services/catalog/src/modules/product-reviews/product-reviews.service.ts:10-12 | The rounded result is a nearest hundredth to the new running average |
| CatalogService.ReviewIsAllowed | services/catalog/src/modules/product-reviews/product-reviews.service.ts:10-12 | Every one to five star review the service computes is one the invariants of its runs cover |
| CatalogService.Database.CreateReview | services/catalog/src/modules/product-reviews/product-reviews.service.ts:15-73 | Commits review, both averages, both counts and both events, or refuses a non-buyer, a second review and a missing product without change |
| CatalogOutcomes.ReviewIff | services/catalog/src/modules/product-reviews/product-reviews.service.ts:15-73 | A review is accepted once from each buyer of a product on sale, refused as forbidden, invalid or not found otherwise; it goes into the averages and counts of the product and of its store and no other field of theirs, and both are announced |
| CatalogService.Database.CreateStoreFor | services/catalog/src/modules/stores/stores.service.ts:27-62 | One store per seller and one per name, at version 1 with its event |
| CatalogService.Database.UpdateStoreOf | services/catalog/src/modules/stores/stores.service.ts:72-109 | The owner renames the store to a free name at the next version with its event, or nothing changes |
| CatalogOutcomes.CreateStoreIff | services/catalog/src/modules/stores/stores.service.ts:27-62 | A store is opened if and only if its seller has none and nobody has its name; it starts at version 1 with nothing rated or on sale |
| CatalogOutcomes.UpdateStoreIff | services/catalog/src/modules/stores/stores.service.ts:72-109 | Not found for anyone but its seller, a conflict if another store has the new name; only name, slug and version change |
| CatalogService.Database.CreateSellerProduct | services/catalog/src/modules/products/products.service.ts:30-70 | A new product with nothing sold, rated or stocked, and the store one product up, each announced |
| CatalogService.Database.UpdateSellerProduct | services/catalog/src/modules/products/products.service.ts:91-132 | Only the owner changes a product; ratings, sales and stock are kept and the next version is announced |
| CatalogService.Database.DeleteSellerProduct | services/catalog/src/modules/products/products.service.ts:134-153 | The product goes, its deletion is announced one version above it, and its store is one product down |
| CatalogOutcomes.CreateProductIff | services/catalog/src/modules/products/products.service.ts:30-70 | A product is put on sale by the seller of the store and nobody else, with each field as described; product and store are announced in that order |
| CatalogOutcomes.UpdateProductIff | services/catalog/src/modules/products/products.service.ts:91-132 | A product is changed by its seller and nobody else, in each field a seller describes and no other |
| CatalogOutcomes.DeleteProductIff | services/catalog/src/modules/products/products.service.ts:134-153 | A product is taken down by its seller and nobody else |
| CatalogService.Database.InventoryChangedHandler | services/catalog/src/modules/events/consumers.ts:31-37 | A newer stock pair replaces an older one; anything else, and a missing product, changes nothing |
| CatalogService.Database.OrderCompletedHandler | services/catalog/src/modules/events/consumers.ts:41-65 | The item loop records each purchase and counts and announces each sale once; a redelivered event does nothing |
| CatalogOutcomes.SaleLeaves | services/catalog/src/modules/events/consumers.ts:41-65 | An item of a completed order notes the purchase, adds its units to the sold count and announces the product one version on |
| CatalogService.Database.ServeAll | services/catalog/src/modules/events/events.ts:7-19 | A service started empty and asked anything in any order, computing its own averages, ends in a run of the model: with a complete log, reviews and averages that agree, and product counts that are right |
| EndToEnd.CommerceConverges | services/commerce/src/modules/catalog-sync/catalog-sync.service.ts:45-87 | Once every event of a product has been handled, in any order, the commerce row of a live product is catalog's field by field, rows exist exactly for products ever upserted, and a deleted one is a tombstone if and only if its deletion was handled after some upsert |
| EndToEnd.StoresConverge | services/commerce/src/modules/catalog-sync/catalog-sync.service.ts:89-100 | In every delivery order, once every event of a store has been handled its commerce row is catalog's store |
| EndToEnd.LoggedEventsAreAllowed | services/catalog/src/modules/events/events.ts:54-73 | What commerce assumes of its input, that a product never changes store, is what the catalog log guarantees |
| EndToEnd.SoldCountsAreCompletedUnits | services/catalog/src/modules/events/consumers.ts:39-65 | End to end: once all completions have arrived, however repeated, the sold count of a product has grown by its units in the completed orders of commerce |
| EndToEnd.PurchasesAreCompletedOrders | services/commerce/src/modules/driver/driver.service.ts:118-130 | A recorded purchase, and so a review, is always by a buyer with a completed order of that product, and every completed order is a purchase once its event has arrived |
| EndToEnd.CatalogStockIsCommerceStock | services/catalog/src/modules/events/consumers.ts:31-37 | The stock catalog shows is always a pair commerce held; it is commerce's own row once its newest announcement has been delivered, and both are zero at version zero if there was none |
| Search.AttemptKeepsSync | services/search/src/sync/apply.ts:8-97 | Any attempt at any event - first, repeated, late, refused, or a rename cut short at some documents, before or after rebuilds - keeps the indices in sync with every event handled so far |
| Search.SyncedIsCatalog | services/search/src/sync/apply.ts:8-97 | Indices in sync with every event of the log show every product of catalog with its latest fields and the latest name and slug of its store, and exactly those if and only if no deleted product is shown |
| Rebuild.SearchConverges | services/search/src/sync/reindex.ts:39-99 | For every run of catalog commits, deliveries in any order and number, and rebuilds that finish or fail, once each event has been handled at least once search shows every product of catalog with its latest fields and store names; and exactly the catalog if and only if no deleted product was brought back by a late upsert and left there |
| Rebuild.RisenIff | services/search/src/sync/reindex.ts:76-78 | After any run, a product whose deletion was handled is shown if and only if some upsert came after a rebuild had forgotten it and neither its deletion nor a finished rebuild has come since |
| Rebuild.SafeDeliveriesConverge | services/search/src/sync/apply.ts:8-13 | If no upsert ever finds its handled deletion forgotten, search ends showing exactly the catalog |
| Rebuild.NoRebuildConverges | services/search/src/sync/apply.ts:8-97 | Without rebuilds that is always so, whatever is delivered in whatever order |
| Rebuild.ExportFacts | services/catalog/src/modules/products/products.repo.ts:157-203 | While catalog commits between pages, the pages visit ids in strictly increasing order, so no product twice; a finished export has visited every product present throughout, and each row written is what catalog held when its page was read |
| Rebuild.PageHolds | services/search/src/sync/reindex.ts:66-93 | A page has at most 500 rows, and a next page exactly if it has 500 |
| Rebuild.ExportTerminates | services/search/src/sync/reindex.ts:66-93 | The page loop ends even if catalog never stops committing |
| Rebuild.RebuildKeepsSync | services/search/src/sync/reindex.ts:66-97 | A finished rebuild loses no change: the new index is in sync with every event handled before it |
| Rebuild.FailedRebuildKeepsSync | services/search/src/sync/reindex.ts:57-59 | A rebuild that fails before its swap, even after a partly rejected bulk write, leaves the live index as it was and still in sync |
| Rebuild.RebuildNeverLowersVersions | services/search/src/sync/reindex.ts:66-97 | No product in both is older in the new index than in the old one |
| Rebuild.DeliveriesAreSafeBeforeAnyRebuild | services/search/src/sync/apply.ts:8-13 | Until a rebuild runs, every handled product has a document or a tombstone that stops late upserts |
| Rebuild.UnsafeDeliveryResurrects | services/search/src/sync/reindex.ts:76-78 | Handling one upsert of a deleted product the rebuilt index does not know shows a product catalog deleted |
| Rebuild.RebuiltIndexForgetsTombstones | services/search/src/sync/reindex.ts:76-78 | The same late upsert is stopped by a tombstone and not stopped after a rebuild |
| Rebuild.BulkWriteForgetsNewer | services/search/src/sync/reindex.ts:75-82 | Why one instance: a page written over a newer document puts the older one back |
| SearchService.Elastic.UpsertProductDoc | services/search/src/sync/apply.ts:15-34 | The live and then the building index get the guarded write, or only the live one when it fails in between |
| SearchService.Elastic.UpsertProduct | services/search/src/sync/apply.ts:36-65 | Fails without effect while the store is not indexed; else a newer event leaves a document with each of its fields and the store's name, slug and version, and both indices end as an attempt at the event leaves them |
| SearchService.Elastic.DeleteProductDoc | services/search/src/sync/apply.ts:67-70 | Both indices get the guarded tombstone |
| SearchService.Elastic.RenameDocs | services/search/src/sync/apply.ts:81-96 | The update by query, stopped anywhere, has renamed exactly the stale documents among those it reached |
| SearchService.Elastic.UpsertStore | services/search/src/sync/apply.ts:72-97 | Lookup and documents end as an attempt that may stop anywhere leaves them, and success means every document was reached |
| SearchService.Elastic.BulkWrite | services/search/src/sync/reindex.ts:71-82 | The rows of a page land in the new index and the store lookup, later rows over earlier ones |
| SearchService.Elastic.Reindex | services/search/src/sync/reindex.ts:39-99 | The loop terminates; it succeeds exactly when nothing breaks, and then the live index is the finished export and the count its documents; otherwise the live index is untouched |
| SearchService.Elastic.HandleEvent | services/search/src/sync/apply.ts:36-97 | Whatever the kind of event and wherever its handling stops, the live index and the lookup end as an attempt at it leaves them; with room for every document it is handled |
| SearchService.Elastic.ServeAll | services/search/src/sync/reindex.ts:41-64 | An instance started empty, given any deliveries and rebuilds while catalog commits, stays in sync with what it handled; once it has handled every event it shows exactly the catalog if and only if no late upsert brought a deleted product back for good |
| Lock.Exclusive.Start | services/search/src/sync/lock.ts:4-8 | The next task starts only when none runs, and it is the one submitted first |
| Lock.Exclusive.Submit | services/search/src/sync/lock.ts:4-8 | A new task goes behind every earlier one and disturbs neither the running task nor what is done |
| Lock.Exclusive.RunAll | services/search/src/sync/lock.ts:4-8 | A batch submitted together runs completely, after what was waiting and in its own order, whichever tasks fail |
| Lock.Exclusive.Drain | services/search/src/sync/lock.ts:4-8 | Every submitted task runs, one at a time and in order, whichever fail |
| Lease.AtMostOneHolder | services/search/src/elastic/indices.ts:43-57 | In every reachable state at most one rebuild holds the stored lease |
| Lease.LostForGood | services/search/src/elastic/indices.ts:82-92 | A lost lease stays lost: its old holder can neither renew nor remove what replaced it, and its next renewal stops it |
| Lease.TakeoverFences | services/search/src/elastic/indices.ts:61-80 | A takeover ends the hold of everyone else, and only ever takes an expired lease |
| Lease.InTimeStillHolds | services/search/src/sync/reindex.ts:91-96 | A rebuild that creates or swaps within the lease time of its last renewal still holds the lease |
| Lease.FillingInvariant | services/search/src/elastic/indices.ts:61-80 | With creation and swap in time and no index stranded, every index under the building alias is the one named by the lease or about to be dropped by its holder |
| Lease.StrandingLosesTrack | services/search/src/sync/reindex.ts:57-62 | The condition is exact for every step: the holder crashes or is taken over with a drop still to do, or gives the lease back after its clean-up was refused, and nothing else, leaves an index under the building alias that no lease remembers |
| Lease.TrackedThroughoutIff | services/search/src/elastic/indices.ts:61-92 | And for every run in time: the index being filled is remembered throughout if and only if no step strands one |
| Lease.AtMostOneFilling | services/search/src/elastic/indices.ts:22-31 | So at most one index is ever under the building alias |
| Lease.LiveMovesOnlyBySwap | services/search/src/elastic/indices.ts:95-110 | The alias always points at an existing index, moves only by a swap, and is lost if and only if a takeover drops the index it points at or a rebuild whose swap threw after moving it cleans up |
| Lease.LiveIsLostIff | services/search/src/elastic/indices.ts:61-110 | After any run in time, a step loses the live index if and only if it is the drop of a takeover that found the lease naming the index live then and now, or the clean-up of a rebuild whose swap moved the alias and threw |
| Lease.LiveSurvives | services/search/src/elastic/indices.ts:61-110 | So a run in time in which neither happens keeps a live index from the first swap on, through crashes, lost replies, refused clean-ups, failed rebuilds and other takeovers |
| Lease.TakeoverDropsLive | services/search/src/elastic/indices.ts:71-79 | Checkable at the takeover: its drop loses the live index if and only if the lease it takes names it; a takeover that crashes before its drop spares it |
| Lease.CrashAfterSwapLosesLive | services/search/src/sync/reindex.ts:53-62 | A concrete run: a rebuild that crashes between swap and release, and after ten minutes the next rebuild deletes the live index, unless it crashes first |
| Lease.CrashBeforeDropLeaksAnIndex | services/search/src/elastic/indices.ts:71-79 | A concrete run: a takeover that crashes before its drop leaves an index behind, and the next rebuild fills a second one |
| Lease.FailedCleanupLeaksAnIndex | services/search/src/sync/reindex.ts:57-62 | A concrete run: a rebuild whose clean-up is refused releases its lease with its index still there, and the next rebuild fills a second one |
| Lease.LateSwapIsDropped | services/search/src/sync/reindex.ts:95-96 | A concrete run: a swap after the lease time, between takeover and drop, is undone by the drop |
| Lease.FailureAfterSwapDropsLive | services/search/src/sync/reindex.ts:57-59 | A rebuild that throws at its swap and cleans up loses the live index if and only if the alias had moved before it threw |
| LeaseService.Store.WriteLease | services/search/src/elastic/indices.ts:41-57 | Creates only where there is none, replaces only the version it was given, and a conflict changes nothing |
| LeaseService.Store.Acquire | services/search/src/elastic/indices.ts:59-80 | Succeeds if and only if there was no lease or it had expired; the taker holds it, and the index the old one named is gone |
| LeaseService.Store.TakeOver | services/search/src/elastic/indices.ts:68-79 | Reading, taking and dropping in a row are those three steps of the protocol |
| LeaseService.Store.KeepLease | services/search/src/elastic/indices.ts:82-85 | Succeeds if and only if the lease is still held, and then names the index and extends it |
| LeaseService.Store.ReleaseLease | services/search/src/elastic/indices.ts:87-92 | Removes the lease only if it is still the one last written |
| LeaseService.Store.SwapAlias | services/search/src/elastic/indices.ts:95-110 | The alias moves in one step and the index it pointed at is dropped; a throw after the move keeps the alias where it now is |
| LeaseService.Store.Finish | services/search/src/sync/reindex.ts:57-62 | After an error the index is deleted unless that is refused; the lease is given back in any case |
| LeaseService.Store.Rebuilding | services/search/src/sync/reindex.ts:39-64 | Wherever it breaks the lease is given back; the live index moves only if the swap is reached and is lost only if the swap throws and the clean-up works; an index stays under the building alias exactly if something between its creation and the swap breaks and the clean-up does too |
| Tokens.ChainsInvariant | services/identity/src/modules/auth/auth.service.ts:36-48 | In every reachable state the tokens of each session form one chain of replacements with exactly one unused token, at its end |
| Tokens.FreshOnlyForNewest | services/identity/src/modules/auth/auth.service.ts:145-190 | A refresh spends exactly the newest token of its family and puts a newer one in its place |
| Tokens.RefreshIff | services/identity/src/modules/auth/auth.service.ts:145-190 | A refresh token is taken if and only if it has not expired and its session was not ended; a spent one ends the session with a horizon an hour ahead, any other is spent for one refresh token of the configured days and one access token of the configured seconds |
| Tokens.TokenLivesItsDays | services/identity/src/modules/auth/auth.service.ts:36-48 | Whatever happens after a login, its refresh token is taken exactly until the configured days of 86,400,000 milliseconds are over or the session is ended |
| Tokens.ReuseRevokes | services/identity/src/modules/auth/auth.service.ts:167-170 | Presenting a spent, unexpired token of a live session commits the revocation and issues nothing |
| Tokens.RevokedForever | services/identity/src/modules/auth/auth.service.ts:145-170 | No later refresh of a revoked session succeeds, with any of its tokens |
| Tokens.RevokedOnceInvariant | services/identity/src/modules/auth/auth.service.ts:208-217 | One revocation event per revoked session and none for others, over any mix of logouts and reuses |
| Tokens.ExchangedAtMostOnce | services/identity/src/modules/auth/auth.service.ts:145-190 | Over every run a token is exchanged for a new one at most once |
| Tokens.HorizonInvariant | services/identity/src/modules/auth/auth.service.ts:55-57 | No access token outlives the cap, and one issued before its session was revoked expires by the announced horizon, whatever lifetimes were configured |
| AuthService.Service.NewRefreshToken | services/identity/src/modules/auth/auth.service.ts:36-48 | One more unused token of the session, expiring after the configured days |
| AuthService.Service.AccessFor | services/identity/src/lib/tokens.ts:11-33 | The expiry is at least one minute and at most the cap away |
| AuthService.Service.Open | services/identity/src/modules/auth/auth.service.ts:108-143 | Each sign-in opens a session of its own with one refresh and one access token |
| AuthService.Service.RefreshTokens | services/identity/src/modules/auth/auth.service.ts:145-190 | Refuses unknown, revoked and expired tokens without change, in that order before looking for reuse; else revokes or rotates |
| AuthService.Service.RevokeSession | services/identity/src/modules/auth/auth.service.ts:208-217 | Revokes and announces a live session; a revoked one is left alone |
| AuthService.Service.LogoutBy | services/identity/src/modules/auth/auth.service.ts:193-206 | By session id, else by token; naming nothing known does nothing |
| AuthService.Service.SelectRoleOf | services/identity/src/modules/auth/auth.service.ts:220-237 | Succeeds if and only if the user has the role and the session is live |
| AuthService.Service.ServeAll | services/identity/src/modules/auth/auth.service.ts:60-237 | After any sequence of requests on the tables in place the chain, single-announcement and horizon properties hold |
| Denylist.PruningIsInvisible | packages/platform/src/auth/denylist.ts:5-22 | Pruning and lookups never change an answer: the list says at any later moment what a list that forgot nothing would say |
| Denylist.RevokedTokensStayRefused | packages/platform/src/auth/denylist.ts:9-23 | Once a service has heard of a revocation it accepts no access token issued before it, at any later time |
| Denylist.AcceptedAgainIff | packages/platform/src/auth/denylist.ts:14-22 | Any token of a session heard revoked is accepted at some later moment if and only if it outlives the horizon |
| Denylist.OthersAreAccepted | packages/platform/src/auth/denylist.ts:14-22 | A token of a session no one revoked is accepted exactly until it expires |
| Denylist.LateTokenOutlivesHorizon | services/identity/src/modules/auth/auth.service.ts:298-302 | A token signed after the revocation without looking at the session can outlive the horizon |
| Denylist.SessionDenylist.Prune | packages/platform/src/auth/denylist.ts:5-7 | The loop drops exactly the entries that have run out |
| Denylist.SessionDenylist.Revoke | packages/platform/src/auth/denylist.ts:10-13 | The map after the call is that of one more revocation, pruned when it has grown large |
| Denylist.SessionDenylist.IsRevoked | packages/platform/src/auth/denylist.ts:14-22 | Answers as the list that never forgets |
| Relay.OutboxRelay.PublishOnce | packages/platform/src/events/relay.ts:25-42 | At any crash point no committed event is lost. A round that succeeds sends and marks exactly the oldest batch; one that fails leaves every row as it was, unless the rows were already stamped, and then the broker has confirmed them |
| Relay.OutboxRelay.Loop | packages/platform/src/events/relay.ts:44-54 | Over any pattern of failures each successful round moves a whole batch on, and an empty table means the broker has every event |
| Relay.OutboxRelay.PendingRows | packages/platform/src/events/postgres.ts:33-41 | The batch is the oldest unpublished rows by the start of their transactions, rows of one age in any order |
| Relay.OutboxRelay.MarkPublished | packages/platform/src/events/postgres.ts:42-46 | Stamps a confirmed batch and then drops week-old rows, or only stamps it; what is still pending is untouched |
| Relay.OutboxRelay.Enqueue | packages/platform/src/events/postgres.ts:51-54 | A new event is pending beside all that were, wherever the age of its transaction puts it |
| Consumer.NoMessageLost | packages/platform/src/events/consumer.ts:40-89 | Under any mix of failures, crashes and redeliveries an acknowledged message was handled or is parked, and the attempt number is one more than the failures before it; crashes do not count |
| Consumer.RecordedCounts | packages/platform/src/events/consumer.ts:21-26 | However the dead-letter entries are laid out, one more death adds one to their sum |
| Consumer.FailsExactlyMaxAttempts | packages/platform/src/events/consumer.ts:71-86 | A message whose handler always fails is handed to it at most the limit of times, and exactly when it has been the last time it is parked, once |
| Consumer.CyclesPark | infra/rabbitmq/init.ts:61-80 | That many rounds of the queue and its retry queue do finish it |
| Consumer.FailureCounts | packages/platform/src/events/consumer.ts:71-86 | Every failed delivery and every return from the retry queue uses up the remaining budget |
| Consumer.ParkedExactly | packages/platform/src/events/consumer.ts:45-86 | The number of parked copies is exactly the number of deaths over a parked but unacknowledged copy, of a malformed or of a failed message, plus one for giving the message up |
| Consumer.ParkedAtMostOnceIff | packages/platform/src/events/consumer.ts:45-86 | So a message is parked at most once if and only if there was no such death, or one and the message was not given up |
| Consumer.CrashParksTwice | packages/platform/src/events/consumer.ts:53-86 | A malformed and a failed message parked twice |
| Consumer.StreamsAckEverything | packages/platform/src/events/consumer.ts:82 | A stream message is acknowledged by its first completed delivery and never parked |
| Consumer.Channel.OnMessage | packages/platform/src/events/consumer.ts:53-88 | Acknowledges, rejects and parks exactly as the message, its attempts and the kind of queue call for |
| Consumer.Inbox.FirstDelivery | packages/platform/src/events/postgres.ts:60-68 | True exactly the first time an id is offered |

## Left out

- CommerceReplica.ReplicaInvariant: takes each transaction as one step; what overlapping ones do to it is in
  `CommerceOverlap`.
- CommerceSync.TombstoneForever: the same.
- CommerceCart.AddingAddsUnits: the same; see `CommerceSplit.AddWritesUnitsIff`.
- The web application, HTTP routes, request schemas, OpenAPI merging, Kong, the seed tool and object storage:
  interface and plumbing. Bounds the schemas enforce (positive amounts, ratings of one to five) are preconditions.
- Postgres, MongoDB, Elasticsearch, RabbitMQ and Consul themselves: they are atomic transactions, documents under
  compare-and-set and queues that repeat and reorder.
- Cryptography and randomness: a token is the id of the row its hash finds; payment and refund references are dropped.
- Ids are natural numbers; an order id is its row, a job is keyed by its order, a cart item by its product and a
  wallet by its user, as their unique constraints allow.
- Column widths: amounts are unbounded integers, and `Math.round` and `toFixed` are exact apart from ties.
- Discount codes are compared after ASCII trimming and upper-casing only; store names are compared exactly, not by
  collation.
- Slugs are inputs: the loop that finds a free one, and the unique index behind it, are not modelled.
- Address book, location lookup, user replicas, role tables, reports (`getReport`), dashboards and
  the listings of orders and jobs: reading and formatting. The overdue count is the length of the overdue list.
- Simulated time advances in whole hours.
- Search ranking, fuzzy matching, mappings, index refresh, and `conflicts: 'proceed'` in the rename: an update by
  query is taken to see all earlier writes.
- Rebuilds on several search instances at once: the lease is modelled for any number of instances, the documents
  for one.
- Bulk requests of a rebuild that lost its lease re-create the index a takeover dropped, outside both aliases.
- Client-side service discovery, configuration reload, service tokens, and the age limit of the revocation stream.
- Reconnecting consumers and prefetch: a message is seen one delivery at a time.
