/** The sub-service validator: every violated rule adds its key to the
    error set, none short-circuits another, and the draft is accepted
    exactly when the set is empty. A text field counts as missing only when
    it is the empty string, so "0" or "abc" passes every price rule. */
module Validation {
  import opened FormData
  import opened ListEdits

  /** The keys one clothing item contributes: one per ticked wash type whose
      price box is empty. */
  function ItemFlags(item: ClothingItem, ws: seq<WashType>): (r: set<ErrorKey>)
    ensures forall k :: k in r <==>
      k.ItemPrice? && k.itemId == item.id && k.wash in ws && Price(item, k.wash) == ""
  {
    (if Standard in ws && item.standardPrice == "" then {ItemPrice(item.id, Standard)} else {})
    + (if Express in ws && item.expressPrice == "" then {ItemPrice(item.id, Express)} else {})
  }

  /** The keys the per-item loop accumulates over `items`, in list order. */
  function ItemsFlags(items: seq<ClothingItem>, ws: seq<WashType>): (r: set<ErrorKey>)
    ensures forall k :: k in r ==> k.ItemPrice?
  {
    if items == [] then {}
    else ItemsFlags(items[..|items| - 1], ws) + ItemFlags(items[|items| - 1], ws)
  }

  /** The keys raised before the pricing rules: name and wash types. */
  function BaseFlags(d: Draft): (r: set<ErrorKey>)
    ensures SubServiceName in r <==> d.subServiceName == ""
    ensures WashTypes in r <==> d.washTypes == []
    ensures forall k :: k in r ==> k == SubServiceName || k == WashTypes
  {
    (if d.subServiceName == "" then {SubServiceName} else {})
    + (if |d.washTypes| == 0 then {WashTypes} else {})
  }

  /** The key of the per-kilogram price box of a wash type. */
  function PerKgKey(w: WashType): ErrorKey {
    match w
    case Standard => StandardPricePerKg
    case Express => ExpressPricePerKg
  }

  /** The keys the per-kilogram rules raise. */
  function PerKgFlags(d: Draft): (r: set<ErrorKey>)
    ensures forall w :: PerKgKey(w) in r <==> w in d.washTypes && PerKgPrice(d, w) == ""
    ensures forall k :: k in r ==> k == StandardPricePerKg || k == ExpressPricePerKg
  {
    (if Standard in d.washTypes && d.standardPricePerKg == "" then {StandardPricePerKg} else {})
    + (if Express in d.washTypes && d.expressPricePerKg == "" then {ExpressPricePerKg} else {})
  }

  /** The error set of a draft and its clothing items. */
  function Validate(d: Draft, items: seq<ClothingItem>): (r: set<ErrorKey>)
    ensures forall k: ErrorKey | !k.ItemPrice? :: k in r <==> Flagged(d, items, k)
  {
    BaseFlags(d) +
    match d.pricingType
    case PerKg => PerKgFlags(d)
    case PerClothingItem =>
      (if |items| == 0 then {ClothingItems} else {}) + ItemsFlags(items, d.washTypes)
  }

  /** The rules key by key: when the key must be raised, stated on its own. */
  predicate Flagged(d: Draft, items: seq<ClothingItem>, k: ErrorKey) {
    match k
    case SubServiceName => d.subServiceName == ""
    case WashTypes => d.washTypes == []
    case StandardPricePerKg => d.pricingType == PerKg && Standard in d.washTypes && d.standardPricePerKg == ""
    case ExpressPricePerKg => d.pricingType == PerKg && Express in d.washTypes && d.expressPricePerKg == ""
    case ClothingItems => d.pricingType == PerClothingItem && items == []
    case ItemPrice(id, w) =>
      d.pricingType == PerClothingItem && w in d.washTypes
      && EmptyPrice(items, id, w)
  }

  /** Some item with id `id` has an empty price for `w`. */
  predicate EmptyPrice(items: seq<ClothingItem>, id: string, w: WashType) {
    exists it :: it in items && it.id == id && Price(it, w) == ""
  }

  /** What a complete sub-service looks like: a name, at least one wash
      type, and a non-empty price for every ticked wash type, per kilogram
      or on every clothing item of a non-empty list. */
  predicate Complete(d: Draft, items: seq<ClothingItem>) {
    && d.subServiceName != ""
    && d.washTypes != []
    && (d.pricingType == PerKg ==> forall w :: w in d.washTypes ==> PerKgPrice(d, w) != "")
    && (d.pricingType == PerClothingItem ==>
          items != [] && forall it, w :: it in items && w in d.washTypes ==> Price(it, w) != "")
  }

  /** The loop raises `(id, w)` exactly when `w` is ticked and some item
      with that id has an empty price for `w`. */
  lemma {:induction false} ItemsFlagsExactly(items: seq<ClothingItem>, ws: seq<WashType>, id: string, w: WashType)
    ensures ItemPrice(id, w) in ItemsFlags(items, ws)
            <==> w in ws && EmptyPrice(items, id, w)
  {
    if items != [] {
      var init, last := items[..|items| - 1], items[|items| - 1];
      assert items == init + [last];
      ItemsFlagsExactly(init, ws, id, w);
      if w in ws && EmptyPrice(items, id, w) {
        var it :| it in items && it.id == id && Price(it, w) == "";
        if it != last {
          assert it in init;
        }
      }
    }
  }

  /** The validator raises a key exactly when its rule says so. */
  lemma ValidateFollowsRules(d: Draft, items: seq<ClothingItem>, k: ErrorKey)
    ensures k in Validate(d, items) <==> Flagged(d, items, k)
  {
    if k.ItemPrice? {
      ItemsFlagsExactly(items, d.washTypes, k.itemId, k.wash);
    }
  }

  /** `ValidateFollowsRules` for every key at once. */
  lemma ValidateFollowsAllRules(d: Draft, items: seq<ClothingItem>)
    ensures forall k :: k in Validate(d, items) <==> Flagged(d, items, k)
  {
    forall k ensures k in Validate(d, items) <==> Flagged(d, items, k) {
      ValidateFollowsRules(d, items, k);
    }
  }

  /** The name and wash-type flags do not depend on any other field. */
  lemma AlwaysFlagsNameAndWashTypes(d: Draft, items: seq<ClothingItem>)
    ensures SubServiceName in Validate(d, items) <==> d.subServiceName == ""
    ensures WashTypes in Validate(d, items) <==> d.washTypes == []
  {
  }

  /** Per-kilogram mode: a price flag exactly for each ticked wash type with
      an empty price, and no clothing-item flag even when items exist. */
  lemma PerKgModeFlags(d: Draft, items: seq<ClothingItem>)
    requires d.pricingType == PerKg
    ensures StandardPricePerKg in Validate(d, items) <==> Standard in d.washTypes && d.standardPricePerKg == ""
    ensures ExpressPricePerKg in Validate(d, items) <==> Express in d.washTypes && d.expressPricePerKg == ""
    ensures ClothingItems !in Validate(d, items)
    ensures forall id, w :: ItemPrice(id, w) !in Validate(d, items)
  {
  }

  /** Clothing-item mode: the list flag exactly when the list is empty, an
      item flag exactly for a ticked wash type and an item whose price for
      it is empty, and no per-kilogram flag. */
  lemma ClothingItemModeFlags(d: Draft, items: seq<ClothingItem>)
    requires d.pricingType == PerClothingItem
    ensures ClothingItems in Validate(d, items) <==> items == []
    ensures forall id, w ::
      (ItemPrice(id, w) in Validate(d, items) <==> w in d.washTypes && EmptyPrice(items, id, w))
    ensures StandardPricePerKg !in Validate(d, items) && ExpressPricePerKg !in Validate(d, items)
  {
    forall id, w ensures ItemPrice(id, w) in Validate(d, items) <==> (w in d.washTypes && EmptyPrice(items, id, w)) {
      ValidateFollowsRules(d, items, ItemPrice(id, w));
    }
  }

  /** The validator accepts exactly the complete sub-services. */
  lemma ValidateEmptyIffComplete(d: Draft, items: seq<ClothingItem>)
    ensures Validate(d, items) == {} <==> Complete(d, items)
  {
    if Validate(d, items) == {} {
      if d.pricingType == PerClothingItem {
        forall it, w | it in items && w in d.washTypes ensures Price(it, w) != "" {
          ValidateFollowsRules(d, items, ItemPrice(it.id, w));
        }
      }
      assert forall w :: w in d.washTypes ==> w == Standard || w == Express;
    } else {
      var k :| k in Validate(d, items);
      ValidateFollowsRules(d, items, k);
    }
  }

  /** After filling in `v` as the `w` price of the items with id `id`, an
      item has an empty price exactly where it had one before, except for
      the `w` price of those items. */
  lemma EmptyPriceAfterUpdate(items: seq<ClothingItem>, id: string, w: WashType, v: string, kid: string, kw: WashType)
    requires v != ""
    ensures EmptyPrice(UpdateItems(items, id, FieldFor(w), v), kid, kw)
            <==> !(kid == id && kw == w) && EmptyPrice(items, kid, kw)
  {
    var after := UpdateItems(items, id, FieldFor(w), v);
    UpdateItemsPrices(items, id, FieldFor(w), v);
    assert FieldFor(kw) == FieldFor(w) <==> kw == w;
    if EmptyPrice(after, kid, kw) {
      var it :| it in after && it.id == kid && Price(it, kw) == "";
      var i :| 0 <= i < |after| && after[i] == it;
      assert Price(after[i], kw) == if items[i].id == id && FieldFor(kw) == FieldFor(w) then v else Price(items[i], kw);
      assert items[i] in items;
    }
    if !(kid == id && kw == w) && EmptyPrice(items, kid, kw) {
      var it :| it in items && it.id == kid && Price(it, kw) == "";
      var i :| 0 <= i < |items| && items[i] == it;
      assert Price(after[i], kw) == if items[i].id == id && FieldFor(kw) == FieldFor(w) then v else Price(items[i], kw);
      assert after[i] in after;
    }
  }

  /** Filling in an item's price for a wash type clears that item's flag for
      it and leaves every other flag as it was. */
  lemma UpdateClearsItemFlag(d: Draft, items: seq<ClothingItem>, id: string, w: WashType, v: string, k: ErrorKey)
    requires v != ""
    ensures ItemPrice(id, w) !in Validate(d, UpdateItems(items, id, FieldFor(w), v))
    ensures k != ItemPrice(id, w) ==>
      (k in Validate(d, UpdateItems(items, id, FieldFor(w), v)) <==> k in Validate(d, items))
  {
    var after := UpdateItems(items, id, FieldFor(w), v);
    ValidateFollowsRules(d, after, ItemPrice(id, w));
    EmptyPriceAfterUpdate(items, id, w, v, id, w);
    ValidateFollowsRules(d, after, k);
    ValidateFollowsRules(d, items, k);
    if k.ItemPrice? {
      EmptyPriceAfterUpdate(items, id, w, v, k.itemId, k.wash);
    }
  }

  /** Removing an item by id removes every flag of that id; the list flag
      may appear when the list becomes empty. */
  lemma RemoveDropsItemFlags(d: Draft, items: seq<ClothingItem>, id: string, w: WashType)
    ensures ItemPrice(id, w) !in Validate(d, WithoutItem(items, id))
  {
    WithoutItemMembers(items, id);
    ValidateFollowsRules(d, WithoutItem(items, id), ItemPrice(id, w));
  }

  /** A complete per-kilogram draft with both wash types ticked and both
      prices filled in is accepted. */
  lemma WashAndFoldPerKgAccepted()
    ensures Validate(Draft("Wash & Fold", [Standard, Express], PerKg, "50", "80"), []) == {}
  {
  }

  /** An empty draft in clothing-item mode raises exactly the name, wash
      type and list flags. */
  lemma EmptyClothingItemDraftFlags()
    ensures Validate(Draft("", [], PerClothingItem, "", ""), []) == {SubServiceName, WashTypes, ClothingItems}
  {
  }

  /** The validator's pass over the clothing items: each item adds one key
      per ticked wash type whose price box is empty, to the keys `errs0`
      already holds. */
  method CollectItemFlags(errs0: set<ErrorKey>, items: seq<ClothingItem>, ws: seq<WashType>)
    returns (errs: set<ErrorKey>)
    ensures errs == errs0 + ItemsFlags(items, ws)
  {
    errs := errs0;
    assert items[..0] == [];
    var i := 0;
    while i < |items|
      invariant 0 <= i <= |items|
      invariant errs == errs0 + ItemsFlags(items[..i], ws)
    {
      var item := items[i];
      ghost var before := errs;
      if Standard in ws && item.standardPrice == "" {
        errs := errs + {ItemPrice(item.id, Standard)};
      }
      if Express in ws && item.expressPrice == "" {
        errs := errs + {ItemPrice(item.id, Express)};
      }
      assert errs == before + ItemFlags(item, ws);
      assert items[..i + 1][..i] == items[..i] && items[..i + 1][i] == item;
      i := i + 1;
    }
    assert items[..i] == items;
  }

  /** The validator: the fixed rules first, then the rules of the pricing
      mode, every violated rule adding its key. */
  method CollectErrors(d: Draft, items: seq<ClothingItem>) returns (errs: set<ErrorKey>)
    ensures errs == Validate(d, items)
    ensures forall k :: k in errs <==> Flagged(d, items, k)
  {
    errs := {};
    if d.subServiceName == "" {
      errs := errs + {SubServiceName};
    }
    if |d.washTypes| == 0 {
      errs := errs + {WashTypes};
    }
    if d.pricingType == PerKg {
      if Standard in d.washTypes && d.standardPricePerKg == "" {
        errs := errs + {StandardPricePerKg};
      }
      if Express in d.washTypes && d.expressPricePerKg == "" {
        errs := errs + {ExpressPricePerKg};
      }
      assert errs == BaseFlags(d) + PerKgFlags(d);
    } else {
      if |items| == 0 {
        errs := errs + {ClothingItems};
      }
      assert errs == BaseFlags(d) + (if |items| == 0 then {ClothingItems} else {});
      errs := CollectItemFlags(errs, items, d.washTypes);
    }
    ValidateFollowsAllRules(d, items);
  }
}
