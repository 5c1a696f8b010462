/** The catalogue document shared by the search and the shopping list. */
module Catalog {
  /** A goods document as the database returns it (`$id` is `id`). */
  datatype Good = Good(id: string, name: string, category: string, price: real, imageId: string, rating: real)
}
