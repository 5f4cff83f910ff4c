/** Records shared by the product store, the page controller and the price ledger. */
module Products {

  datatype Option<T> = None | Some(value: T)

  /** A product record as the app holds and persists it.

      `scannedAt` is the timestamp of a history entry. The source types a
      history entry as a product plus `scannedAt`, and structural typing lets
      such an entry flow wherever a product is expected: selecting it from the
      history makes it the displayed product, and favouriting it then stores it
      with its timestamp. One record type with an optional timestamp models
      both. A freshly looked-up product has no timestamp. */
  datatype Product = Product(
    code: string,
    productName: string,
    brands: string,
    categories: string,
    ingredientsText: Option<string>,
    quantity: Option<string>,
    nutriscoreGrade: Option<string>,
    imageUrl: Option<string>,
    scannedAt: Option<string>)

  /** The fields the product database returns for a barcode it knows. */
  datatype ProductFields = ProductFields(
    productName: string,
    brands: string,
    categories: string,
    ingredientsText: Option<string>,
    quantity: Option<string>,
    nutriscoreGrade: Option<string>,
    imageUrl: Option<string>)
}
