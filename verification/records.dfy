/**
 The records kept in the backend's JSON store: products, inventory documents
 and warehouse locations. A JSON object is read through `dict.values()`, so
 each collection is the sequence of its values in insertion order; the
 locations stay a map because the backend only ever looks them up by key.
 */
module Records {

  datatype Option<T> = None | Some(value: T)

  datatype Product = Product(
    id: string,
    category: string,
    name: string,
    locationId: string,
    stockLevel: int,
    reorderPoint: int)

  datatype Line = Line(productId: string, qty: int, category: string)

  /** One inventory operation (receipt, delivery, internal transfer or
      adjustment). `sourceLocation`/`targetLocation` are `None` when the key
      is absent (or JSON null); an absent `category_list` reads as empty. */
  datatype Document = Document(
    id: string,
    docType: string,
    status: string,
    createdBy: string,
    createdAt: string,
    lines: seq<Line>,
    sourceLocation: Option<string>,
    targetLocation: Option<string>,
    categoryList: seq<string>)

  datatype Location = Location(id: string, name: string, manager: string)

  datatype Store = Store(
    products: seq<Product>,
    documents: seq<Document>,
    locations: map<string, Location>)

  /** The data the backend writes when no store file exists. Each document's
      `created_at` is a fresh `datetime.now()` in the backend, so the four
      timestamps are parameters here, in document order. */
  function DefaultStore(t1: string, t2: string, t3: string, t4: string): Store {
    Store(
      [ Product("P1A2B3C4", "Electronics", "Laptop Model X", "W001", 120, 30),
        Product("P5D6E7F8", "Peripherals", "Wireless Mouse Z", "W002", 35, 50),
        Product("P9G0H1I2", "Components", "Memory Module 16GB", "W001", 1000, 100),
        Product("P00A0B0C", "Apparel", "Safety Vest", "W002", 10, 50),
        Product("P0D0E0F0", "Home Goods", "Cleaning Wipes", "W001", 5, 10) ],
      [ Document("D001", "Delivery", "Ready", "SM001", t1,
                 [Line("P1A2B3C4", 5, "Electronics")],
                 Some("W001"), None, ["Electronics"]),
        Document("R002", "Receipt", "Waiting", "InvManager", t2,
                 [Line("P9G0H1I2", 200, "Components")],
                 None, Some("W001"), ["Components"]),
        Document("T003", "Internal", "Draft", "WH002", t3,
                 [Line("P5D6E7F8", 20, "Peripherals")],
                 Some("W002"), Some("W001"), ["Peripherals"]),
        Document("A004", "Adjustment", "Done", "StockMaster", t4,
                 [Line("P00A0B0C", -10, "Apparel")],
                 None, None, ["Apparel"]) ],
      map[ "W001" := Location("W001", "Main Warehouse", "Alice"),
           "W002" := Location("W002", "Overflow Storage", "Bob") ])
  }
}
