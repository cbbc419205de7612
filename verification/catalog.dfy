/** The product record the catalog pages keep in `products.json`. */
module Catalog {

  /** `Product`: `Id` is the database identity, which nothing in the JSON
      store assigns, so it is 0 unless a loaded file says otherwise; `Price`
      is a `decimal`. */
  datatype Product = Product(id: int, name: string, category: string, imagePath: string,
                             quantityType: string, price: real)
}
