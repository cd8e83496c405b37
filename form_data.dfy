/** The values held by the "Add Service" form: wash types, pricing modes,
    clothing items, the sub-service draft, validation error keys and the
    record a successful save produces. */
module FormData {

  /** The two wash tiers a sub-service can offer ('standard' and 'express'). */
  datatype WashType = Standard | Express

  /** How a sub-service is priced ('perKg' or 'clothingItems'). */
  datatype PricingType = PerKg | PerClothingItem

  /** The price field of a clothing item that an edit addresses
      ('standardPrice' or 'expressPrice'). */
  datatype PriceField = StandardPrice | ExpressPrice

  /** One row of itemized pricing. Prices are the raw text of the input box. */
  datatype ClothingItem = ClothingItem(id: string, clothingType: string, standardPrice: string, expressPrice: string)

  /** The sub-service being edited (the `formData` slice). The wash types keep
      the order in which they were ticked. */
  datatype Draft = Draft(
    subServiceName: string,
    washTypes: seq<WashType>,
    pricingType: PricingType,
    standardPricePerKg: string,
    expressPricePerKg: string)

  /** A key of the validation error map. The string keys
      `${item.id}_standard` and `${item.id}_express` become `ItemPrice`. */
  datatype ErrorKey =
    | SubServiceName
    | WashTypes
    | StandardPricePerKg
    | ExpressPricePerKg
    | ClothingItems
    | ItemPrice(itemId: string, wash: WashType)

  /** A sub-service frozen by a successful save: a fresh id, the draft's
      fields and a copy of the clothing-item list. */
  datatype SavedSubService = SavedSubService(id: string, draft: Draft, clothingItems: seq<ClothingItem>)

  /** The draft the form starts from and returns to after a save or a cancel. */
  const InitialDraft: Draft := Draft("", [], PerKg, "", "")

  /** The garment types the item picker can offer. */
  const ClothingTypes: set<string> :=
    {"Shirt", "Short Dress", "Saree", "Trouser", "Blouse", "Suit", "Jacket", "Skirt", "T-Shirt"}

  /** The price an item carries for a wash type. */
  function Price(item: ClothingItem, w: WashType): string {
    match w
    case Standard => item.standardPrice
    case Express => item.expressPrice
  }

  /** The per-kilogram price a draft carries for a wash type. */
  function PerKgPrice(d: Draft, w: WashType): string {
    match w
    case Standard => d.standardPricePerKg
    case Express => d.expressPricePerKg
  }

  /** The item field that holds the price for a wash type. */
  function FieldFor(w: WashType): PriceField {
    match w
    case Standard => StandardPrice
    case Express => ExpressPrice
  }

  /** `{ ...item, [field]: value }` for one of the two price fields. */
  function SetPrice(item: ClothingItem, f: PriceField, v: string): (r: ClothingItem)
    ensures r.id == item.id && r.clothingType == item.clothingType
    ensures forall w :: Price(r, w) == if FieldFor(w) == f then v else Price(item, w)
  {
    match f
    case StandardPrice => item.(standardPrice := v)
    case ExpressPrice => item.(expressPrice := v)
  }

  predicate NoDuplicates<T(==)>(s: seq<T>) {
    forall i, j | 0 <= i < j < |s| :: s[i] != s[j]
  }

  /** No two items share an id. */
  predicate DistinctIds(items: seq<ClothingItem>) {
    forall i, j | 0 <= i < j < |items| :: items[i].id != items[j].id
  }

  /** No two items share a clothing type. */
  predicate DistinctTypes(items: seq<ClothingItem>) {
    forall i, j | 0 <= i < j < |items| :: items[i].clothingType != items[j].clothingType
  }

  predicate HasId(items: seq<ClothingItem>, id: string) {
    exists it :: it in items && it.id == id
  }

  predicate HasType(items: seq<ClothingItem>, t: string) {
    exists it :: it in items && it.clothingType == t
  }
}
