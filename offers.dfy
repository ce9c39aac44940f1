/** The records that flow through the offer pipeline. */
module Offers {
  import opened Wrappers

  /** What the deals page yields for one product card: the card's title, price text, struck-out
      price text (null when the card shows none), link and Prime badge. */
  datatype RawFragment = RawFragment(
    title: string,
    priceStr: string,
    oldPriceStr: Option<string>,
    link: string,
    prime: bool)

  /** A product as the pipeline hands it on: prices are null when unparsable, `asin` is null when the
      link holds none, `score` is set once the product has been ranked, and `imageUrl` is never set
      by the deals scraper. */
  datatype Product = Product(
    title: string,
    price: Option<real>,
    oldPrice: Option<real>,
    discount: real,
    asin: Option<string>,
    link: string,
    prime: bool,
    category: string,
    imageUrl: Option<string>,
    score: Option<int>)

  /** JavaScript truthiness of the `asin` field: null and "" are falsy. */
  predicate HasAsin(p: Product) { p.asin.Some? && p.asin.value != "" }
}
