/** The published language: ids, and the events one service commits and others consume. */
module Contracts {
  import opened Prelude

  type UserId = nat
  type StoreId = nat
  type ProductId = nat
  type OrderId = nat

  /** What search and commerce replicate of a product. Ratings are in hundredths of a star. */
  datatype ProductFields = ProductFields(
    name: string,
    slug: string,
    description: Option<string>,
    price: nat,
    imageKey: Option<string>,
    rating: int,
    reviewCount: nat,
    soldCount: int)

  datatype CatalogEvent =
    | StoreUpserted(store: StoreId, seller: UserId, storeName: string, storeSlug: string, version: nat)
    | ProductUpserted(product: ProductId, store: StoreId, fields: ProductFields, version: nat)
    | ProductDeleted(product: ProductId, version: nat)

  datatype SoldItem = SoldItem(product: Option<ProductId>, quantity: nat)

  datatype CommerceEvent =
    | InventoryChanged(product: ProductId, stock: int, version: nat)
    | OrderCompleted(order: OrderId, buyer: UserId, items: seq<SoldItem>)
}
