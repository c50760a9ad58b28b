/** The shape of the product data the catalogue reads (`data/products.json`). */
module Catalog {
  import opened Wrappers

  /** One product record; every field is optional in the data. */
  datatype Product = Product(
    partNumber: Option<string>,
    oemCrossReference: Option<string>,
    modelApplication: Option<string>,
    specialFeatures: Option<string>)

  /** The products listed under one size key (such as "430"), in data order. */
  datatype SizeGroup = SizeGroup(diameter: string, products: seq<Product>)

  /** One category key as stored (such as "cover_assembly") with its size groups, in key order. */
  datatype CategoryGroup = CategoryGroup(key: string, sizes: seq<SizeGroup>)

  /** The whole data file, in `Object.keys` order. */
  type ProductData = seq<CategoryGroup>
}
