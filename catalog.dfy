/**
 * The catalog records the pricing code reads (products/models.py). Money is a
 * whole number of cents: every price is a two-decimal DecimalField.
 */
module Catalog {
  import opened Wrappers

  /** An amount of money in cents (`Decimal("12.34")` is 1234). */
  type Cents = int

  /** A product category; `slug` is the field added by migration 0006. */
  datatype Category = Category(
    id: int,
    name: string,
    friendlyName: Option<string>,
    slug: Option<string>,
    parent: Option<int>)

  /**
   * A product. `price` is a non-null DecimalField, so Python's
   * `product.price or 0` is always `product.price`.
   */
  datatype Product = Product(
    id: int,
    category: Option<Category>,
    sku: Option<string>,
    name: string,
    description: string,
    price: Cents,
    /** The stored `image.name`; the column is nullable, so it may be None. */
    image: Option<string>)

  /**
   * A purchasable variant of a product (a box of cupcakes). Its class is not
   * part of this model; the record carries what the pricing code reads from
   * it: the product it belongs to, its optional `price` and the value of
   * `pack_price()`.
   */
  datatype ProductOption = ProductOption(
    id: int,
    productId: int,
    labelText: string,
    price: Option<Cents>,
    packPrice: Cents)

  /** The product and option tables, keyed by primary key. */
  datatype Store = Store(products: map<int, Product>, options: map<int, ProductOption>)
  {
    /** Every row is stored under its own primary key. */
    predicate Valid() {
      && (forall id :: id in products ==> products[id].id == id)
      && (forall id :: id in options ==> options[id].id == id)
    }
  }
}
