# Add Service form — state and validation model

This project models the logic of the "Add Service" form of a laundry
pricing catalogue (`src/components/AddServiceForm.tsx`). An operator picks a
service and opens a sub-service form. There they choose a sub-service name,
tick the wash types (standard, express) and pick a pricing mode. In
per-kilogram mode they enter one price per ticked wash type. In clothing-item
mode they build a list of garments, each with one price per ticked wash type.
Saving runs a validator. If the validator passes, the sub-service is frozen
into the saved list and the draft is reset. If it fails, the errors are
recorded for display.

Modules:

- `FormData` (`form_data.dfy`): the values. These are the wash type and
  pricing type enums, the clothing item, the draft (`formData`), the typed
  error key, the saved sub-service, the initial draft and the picker's
  clothing types.
- `ListEdits` (`list_edits.dfy`): the pure list expressions inside the
  handlers. These are the wash-type toggle, item removal by id and the
  price edit. Each has lemmas: toggle-twice, order preservation,
  distinctness preservation.
- `Validation` (`validation.dfy`): the validator. `Validate` is the error
  set as a function. `Flagged` states each rule on its own, key by key.
  `Complete` says what an acceptable sub-service is. `CollectErrors` is the
  validator's loop over the items, proved equal to `Validate`. The lemmas
  relate the three definitions to each other and to the list edits.
- `ServiceForm` (`service_form.dfy`): class `AddServiceForm`. It has one
  field per piece of component state and one method per event handler.
  `Valid()` is the invariant every handler keeps. It says wash types are
  never ticked twice, item ids and clothing types are distinct, the picker
  never holds a type already listed, and every saved sub-service passed
  validation.

Some choices in the model:

- The string-keyed error record `Record<string, boolean>` only ever holds
  `true`, so it is a `set<ErrorKey>`. The keys `${id}_standard` and
  `${id}_express` become `ItemPrice(id, Standard)` and
  `ItemPrice(id, Express)`. That encoding is injective in the id, so the set
  loses nothing. Two items with the same id still share their keys, as in
  the source.
- The source tests text fields with JavaScript truthiness. A field is
  missing only when it is the empty string, so the price `"0"` is accepted.
  No numeric check exists.
- The ids from `Date.now()` become method parameters. A new item's id must
  not be in use yet.
- The success or failure notification becomes the boolean result of
  `HandleSaveSubService`.

Two behaviours of the code are easy to miss:

- Toggling a ticked wash type twice does not give back the same list. The
  type is removed and then appended at the end, so the order can change
  (`ListEdits.ToggleTwiceReorders`). Only the set of ticked types is
  restored (`ListEdits.ToggleTwice`). The validator reads only membership,
  so it gives the same result either way.
- `addClothingItem` does not itself refuse a clothing type already in the
  list. Only the picker keeps duplicates out, because it offers only types
  not yet listed. The model states this as the precondition of
  `SelectClothingType` and as a clause of `Valid()`.

## Model

| member | source | states |
|---|---|---|
| `FormData.SetPrice` | src/components/AddServiceForm.tsx:92-96 | the spread `{ ...item, [field]: value }` keeps id and type and changes only the price of the addressed field |
| `ListEdits.WithoutWash` | src/components/AddServiceForm.tsx:68-70 | filtering out a wash type keeps exactly the other types, is the identity when the type is absent, and introduces no duplicate |
| `ListEdits.Toggle` | src/components/AddServiceForm.tsx:65-72 | after a toggle the type is ticked iff it was not ticked before; every other type keeps its state; no duplicate is introduced |
| `ListEdits.WithoutWashAppended` | src/components/AddServiceForm.tsx:68-70 | filtering a list with the type appended equals filtering the list |
| `ListEdits.ToggleTwice` | src/components/AddServiceForm.tsx:65-72 | toggling the same type twice restores the set of ticked types, and restores the list exactly when the type was absent |
| `ListEdits.ToggleTwiceReorders` | src/components/AddServiceForm.tsx:65-72 | toggling a ticked type twice can reorder the list: [standard, express] becomes [express, standard] |
| `ListEdits.WithoutItem` | src/components/AddServiceForm.tsx:88-90 | its own contract says only that removal never lengthens the list; its meaning is given by `WithoutItemMembers`, `WithoutItemConcat` and `WithoutAbsentId` |
| `ListEdits.WithoutItemMembers` | src/components/AddServiceForm.tsx:88-90 | removal keeps exactly the items whose id differs |
| `ListEdits.WithoutAbsentId` | src/components/AddServiceForm.tsx:88-90 | removal is a no-op when no item has the id |
| `ListEdits.WithoutItemConcat` | src/components/AddServiceForm.tsx:88-90 | removal distributes over concatenation, so the remaining items keep their order |
| `ListEdits.RemoveUniqueId` | src/components/AddServiceForm.tsx:88-90 | when no other item carries the id at position k (as with distinct ids), removing that id yields the list without position k, the rest in order |
| `ListEdits.WithoutItemKeepsDistinctIds` | src/components/AddServiceForm.tsx:88-90 | removal keeps item ids distinct |
| `ListEdits.WithoutItemKeepsDistinctTypes` | src/components/AddServiceForm.tsx:88-90 | removal keeps clothing types distinct |
| `ListEdits.UpdateItems` | src/components/AddServiceForm.tsx:92-96 | the price edit preserves length; position by position, an item whose id matches gets the spread update and every other item is kept |
| `ListEdits.UpdateItemsPrices` | src/components/AddServiceForm.tsx:92-96 | the price edit preserves length, every id and every type, and changes only the addressed price of the items whose id matches |
| `ListEdits.UpdateItemsKeepsDistinctIds` | src/components/AddServiceForm.tsx:92-96 | the price edit keeps ids distinct |
| `ListEdits.UpdateItemsKeepsTypes` | src/components/AddServiceForm.tsx:92-96 | the price edit keeps types distinct and the set of listed types unchanged |
| `Validation.ItemFlags` | src/components/AddServiceForm.tsx:120-125 | one item raises exactly the keys (its id, w) for the ticked wash types w whose price on that item is empty |
| `Validation.ItemsFlags` | src/components/AddServiceForm.tsx:119-126 | the per-item loop raises item-price keys only |
| `Validation.BaseFlags` | src/components/AddServiceForm.tsx:107-108 | the name key is raised iff the name is empty, the wash-type key iff no type is ticked, and no other key |
| `Validation.PerKgFlags` | src/components/AddServiceForm.tsx:110-116 | the per-kg key of a wash type is raised iff that type is ticked and its per-kg price is empty, and no other key |
| `Validation.Validate` | src/components/AddServiceForm.tsx:104-128 | every key other than an item-price key is in the error set iff its own rule is violated; item-price keys are stated by `ItemsFlagsExactly` and `ValidateFollowsRules` |
| `Validation.ItemsFlagsExactly` | src/components/AddServiceForm.tsx:119-126 | the loop raises (id, w) iff w is ticked and an item with that id has an empty price for w |
| `Validation.ValidateFollowsRules` | src/components/AddServiceForm.tsx:104-131 | every key is in the error set iff its own rule is violated, with no short-circuiting between rules |
| `Validation.ValidateFollowsAllRules` | src/components/AddServiceForm.tsx:104-131 | the error set holds exactly the keys whose rules are violated |
| `Validation.AlwaysFlagsNameAndWashTypes` | src/components/AddServiceForm.tsx:107-108 | the name flag is raised iff the name is empty, and the wash-type flag iff no type is ticked, whatever the other fields hold |
| `Validation.PerKgModeFlags` | src/components/AddServiceForm.tsx:110-116 | in per-kg mode each per-kg price flag is raised iff its type is ticked and its price is empty, and no clothing-item flag arises even if items exist |
| `Validation.ClothingItemModeFlags` | src/components/AddServiceForm.tsx:117-127 | in clothing-item mode the list flag is raised iff the list is empty, (id, w) iff w is ticked and that item's w price is empty, and no per-kg flag arises |
| `Validation.ValidateEmptyIffComplete` | src/components/AddServiceForm.tsx:104-131 | the error set is empty iff the sub-service is complete: a name, a wash type, and a non-empty price for each ticked type, per kg or on every item of a non-empty list |
| `Validation.EmptyPriceAfterUpdate` | src/components/AddServiceForm.tsx:92-96 | after filling in a non-empty price for (id, w), an empty price remains exactly where there was one before, except at (id, w) |
| `Validation.UpdateClearsItemFlag` | src/components/AddServiceForm.tsx:119-126 | filling in a non-empty price clears that item's flag for that wash type and changes no other flag |
| `Validation.RemoveDropsItemFlags` | src/components/AddServiceForm.tsx:119-126 | after removing an id, no item-price flag for that id remains |
| `Validation.WashAndFoldPerKgAccepted` | src/components/AddServiceForm.tsx:110-116 | a named per-kg draft with both types ticked and both prices filled in has no errors |
| `Validation.EmptyClothingItemDraftFlags` | src/components/AddServiceForm.tsx:104-118 | an empty clothing-item draft raises exactly the name, wash-type and list flags |
| `Validation.CollectItemFlags` | src/components/AddServiceForm.tsx:119-126 | the `forEach` over the items adds to the keys already raised exactly the per-item flags of the whole list |
| `Validation.CollectErrors` | src/components/AddServiceForm.tsx:104-128 | the validator's loop over the items builds exactly the error set, key by key as the rules say |
| `ServiceForm.AddServiceForm.constructor` | src/components/AddServiceForm.tsx:21-35 | the form starts with every slice at its initial value, in a valid state |
| `ServiceForm.AddServiceForm.SetServiceName` | src/components/AddServiceForm.tsx:206-209 | choosing a service changes only the service name |
| `ServiceForm.AddServiceForm.SetSubServiceName` | src/components/AddServiceForm.tsx:248-251 | choosing a sub-service name changes only that draft field |
| `ServiceForm.AddServiceForm.WashTypeToggle` | src/components/AddServiceForm.tsx:65-72 | the draft's wash types become their toggle; nothing else changes and no duplicate appears |
| `ServiceForm.AddServiceForm.SetPricingType` | src/components/AddServiceForm.tsx:302-304 | switching the pricing type changes only the mode and clears no price, item or error |
| `ServiceForm.AddServiceForm.SetStandardPricePerKg` | src/components/AddServiceForm.tsx:332 | the standard per-kg box changes only that draft field |
| `ServiceForm.AddServiceForm.SetExpressPricePerKg` | src/components/AddServiceForm.tsx:348 | the express per-kg box changes only that draft field |
| `ServiceForm.AddServiceForm.SelectClothingType` | src/components/AddServiceForm.tsx:372-380 | the picker selects only a listed clothing type that is not yet among the items |
| `ServiceForm.AddServiceForm.AddClothingItem` | src/components/AddServiceForm.tsx:74-86 | with no selection nothing changes; otherwise exactly one item with the selected type and empty prices is appended after the unchanged earlier items, the selection is cleared, and types stay distinct |
| `ServiceForm.AddServiceForm.RemoveClothingItem` | src/components/AddServiceForm.tsx:88-90 | the item list becomes its filtered version; nothing else changes |
| `ServiceForm.AddServiceForm.UpdateClothingItem` | src/components/AddServiceForm.tsx:92-96 | the item list becomes its price-edited version; nothing else changes |
| `ServiceForm.AddServiceForm.AddSubService` | src/components/AddServiceForm.tsx:98-102 | the sub-service form opens iff a service is chosen, and nothing else changes |
| `ServiceForm.AddServiceForm.HideSubServiceForm` | src/components/AddServiceForm.tsx:454-456 | the inner Cancel only hides the form and keeps the draft, items and errors |
| `ServiceForm.AddServiceForm.ValidateForm` | src/components/AddServiceForm.tsx:104-131 | the recorded errors are the validator's result, and success holds iff that set is empty iff the draft is complete |
| `ServiceForm.AddServiceForm.HandleSaveSubService` | src/components/AddServiceForm.tsx:133-166 | on success the saved list grows by exactly the pre-save draft and items, the draft, items and errors reset, the form closes, and the service name is kept; on failure only the errors change, to the validator's result |
| `ServiceForm.AddServiceForm.HandleCancel` | src/components/AddServiceForm.tsx:168-181 | everything but the clothing-type selection returns to its initial value |

## Left out

- Markup, styling, icons and component-library widgets are left out. They are view code.
- The `toast` notifications are left out. They are a foreign hook; the save result stands for them.
- Time-stamp ids (`Date.now().toString()`) are left out. They depend on the wall clock. Ids are parameters, and an item id must be unused.
- The service and sub-service option lists are left out, because they are display constants. `SetServiceName` and `SetSubServiceName` accept any string, a superset of what the pickers offer.
- React's batched, asynchronous state scheduling is left out. Each handler is one atomic transition.
- Handlers are not restricted to the moments their controls are rendered. For example, a price box only shows while the sub-service form is open and its wash type is ticked. The model lets every handler run in any valid state.
- `UpdateClothingItem`: the source's `field` is any string key. The model takes only the two price fields, which are all the markup passes. With any other key the spread would add a new property to the item, and with `id` or `type` it would overwrite the item's id or clothing type, which could break the distinct-ids and distinct-types clauses of `Valid()`.
- The source's `pricingType` is a string that the radio group sets to one of two values. The model uses an enum, so clothing-item mode is exactly the source's `else if` branch.
- The single-sub-service variant of this form is not part of this model.
