/** The "Add Service" form as a state machine: one field per piece of
    component state and one method per event handler. Each handler is one
    atomic transition and names in its `modifies` clause the state slices it
    writes; everything else is left as it was. */
module ServiceForm {
  import opened FormData
  import opened ListEdits
  import opened Validation

  class AddServiceForm {
    var serviceName: string
    var showSubServiceForm: bool
    var savedSubServices: seq<SavedSubService>
    var formData: Draft
    var clothingItems: seq<ClothingItem>
    var selectedClothingType: string
    var errors: set<ErrorKey>

    /** What every reachable state satisfies: wash types are never ticked
        twice, clothing items have distinct ids and distinct types taken
        from the picker's list, the picker only holds a type not yet in the
        list, and every saved sub-service passed validation. */
    ghost predicate Valid()
      reads this
    {
      && NoDuplicates(formData.washTypes)
      && DistinctIds(clothingItems)
      && DistinctTypes(clothingItems)
      && (forall it :: it in clothingItems ==> it.clothingType in ClothingTypes)
      && (selectedClothingType == ""
          || (selectedClothingType in ClothingTypes && !HasType(clothingItems, selectedClothingType)))
      && (forall s :: s in savedSubServices ==> Validate(s.draft, s.clothingItems) == {})
    }

    /** The state the component mounts with. */
    constructor ()
      ensures Valid()
      ensures serviceName == "" && !showSubServiceForm && savedSubServices == []
      ensures formData == InitialDraft && clothingItems == []
      ensures selectedClothingType == "" && errors == {}
    {
      serviceName := "";
      showSubServiceForm := false;
      savedSubServices := [];
      formData := InitialDraft;
      clothingItems := [];
      selectedClothingType := "";
      errors := {};
    }

    /** The service picker's change handler. */
    method SetServiceName(name: string)
      requires Valid()
      modifies this`serviceName
      ensures Valid() && serviceName == name
    {
      serviceName := name;
    }

    /** The sub-service name picker's change handler. */
    method SetSubServiceName(name: string)
      requires Valid()
      modifies this`formData
      ensures Valid() && formData == old(formData).(subServiceName := name)
    {
      formData := formData.(subServiceName := name);
    }

    /** Ticking or unticking a wash-type checkbox. */
    method WashTypeToggle(t: WashType)
      requires Valid()
      modifies this`formData
      ensures Valid()
      ensures formData == old(formData).(washTypes := Toggle(old(formData.washTypes), t))
    {
      formData := formData.(washTypes := Toggle(formData.washTypes, t));
    }

    /** The pricing-type radio group: only the mode changes; prices, items
        and errors are kept. */
    method SetPricingType(p: PricingType)
      requires Valid()
      modifies this`formData
      ensures Valid() && formData == old(formData).(pricingType := p)
    {
      formData := formData.(pricingType := p);
    }

    /** The standard per-kilogram price box. */
    method SetStandardPricePerKg(v: string)
      requires Valid()
      modifies this`formData
      ensures Valid() && formData == old(formData).(standardPricePerKg := v)
    {
      formData := formData.(standardPricePerKg := v);
    }

    /** The express per-kilogram price box. */
    method SetExpressPricePerKg(v: string)
      requires Valid()
      modifies this`formData
      ensures Valid() && formData == old(formData).(expressPricePerKg := v)
    {
      formData := formData.(expressPricePerKg := v);
    }

    /** The clothing-type picker, which offers only the listed types not yet
        present among the items. */
    method SelectClothingType(t: string)
      requires Valid()
      requires t in ClothingTypes && !HasType(clothingItems, t)
      modifies this`selectedClothingType
      ensures Valid() && selectedClothingType == t
    {
      selectedClothingType := t;
    }

    /** "Add Item": nothing happens without a selection; otherwise one item
        with the selected type and empty prices is appended and the
        selection is cleared. `newId` stands for the time-stamp id. */
    method AddClothingItem(newId: string)
      requires Valid()
      requires !HasId(clothingItems, newId)
      modifies this`clothingItems, this`selectedClothingType
      ensures Valid()
      ensures old(selectedClothingType) == "" ==>
        clothingItems == old(clothingItems) && selectedClothingType == ""
      ensures old(selectedClothingType) != "" ==>
        && clothingItems == old(clothingItems) + [ClothingItem(newId, old(selectedClothingType), "", "")]
        && selectedClothingType == ""
    {
      if selectedClothingType == "" {
        return;
      }
      var item := ClothingItem(newId, selectedClothingType, "", "");
      clothingItems := clothingItems + [item];
      selectedClothingType := "";
    }

    /** The bin icon on an item: drops the items with that id. */
    method RemoveClothingItem(id: string)
      requires Valid()
      modifies this`clothingItems
      ensures Valid()
      ensures clothingItems == WithoutItem(old(clothingItems), id)
    {
      WithoutItemKeepsDistinctIds(clothingItems, id);
      WithoutItemKeepsDistinctTypes(clothingItems, id);
      WithoutItemMembers(clothingItems, id);
      clothingItems := WithoutItem(clothingItems, id);
    }

    /** An item's price box: sets one price field of the items with that id. */
    method UpdateClothingItem(id: string, f: PriceField, v: string)
      requires Valid()
      modifies this`clothingItems
      ensures Valid()
      ensures clothingItems == UpdateItems(old(clothingItems), id, f, v)
    {
      UpdateItemsKeepsDistinctIds(clothingItems, id, f, v);
      UpdateItemsKeepsTypes(clothingItems, id, f, v);
      var updated := UpdateItems(clothingItems, id, f, v);
      assert forall it :: it in updated ==> it.clothingType in ClothingTypes by {
        forall it | it in updated ensures it.clothingType in ClothingTypes {
          var i :| 0 <= i < |updated| && updated[i] == it;
          assert clothingItems[i] in clothingItems;
        }
      }
      clothingItems := updated;
    }

    /** "Add Sub Service": opens the sub-service form only once a service is
        chosen. */
    method AddSubService()
      requires Valid()
      modifies this`showSubServiceForm
      ensures Valid()
      ensures showSubServiceForm == (old(showSubServiceForm) || serviceName != "")
    {
      if serviceName != "" {
        showSubServiceForm := true;
      }
    }

    /** The "Cancel" button inside the sub-service form: hides the form and
        keeps the draft, its items and its errors. */
    method HideSubServiceForm()
      requires Valid()
      modifies this`showSubServiceForm
      ensures Valid() && !showSubServiceForm
    {
      showSubServiceForm := false;
    }

    /** Runs the validator on the draft, records its error set and reports
        whether it is empty. */
    method ValidateForm() returns (ok: bool)
      requires Valid()
      modifies this`errors
      ensures Valid()
      ensures errors == Validate(formData, clothingItems)
      ensures ok <==> Complete(formData, clothingItems)
      ensures ok <==> errors == {}
    {
      var newErrors := CollectErrors(formData, clothingItems);
      errors := newErrors;
      ValidateEmptyIffComplete(formData, clothingItems);
      ok := errors == {};
    }

    /** "Save Sub-Service". On success the draft and a copy of its items are
        appended to the saved list under `newId`, and the draft, items,
        errors and form visibility return to their initial values; the
        service name and the picker's selection are kept. On failure only
        the error set changes. The result stands for the success or failure
        notification. */
    method HandleSaveSubService(newId: string) returns (saved: bool)
      requires Valid()
      modifies this
      ensures Valid()
      ensures saved <==> Complete(old(formData), old(clothingItems))
      ensures serviceName == old(serviceName) && selectedClothingType == old(selectedClothingType)
      ensures saved ==>
        && savedSubServices == old(savedSubServices) + [SavedSubService(newId, old(formData), old(clothingItems))]
        && formData == InitialDraft && clothingItems == [] && errors == {}
        && !showSubServiceForm
      ensures !saved ==>
        && savedSubServices == old(savedSubServices)
        && formData == old(formData) && clothingItems == old(clothingItems)
        && showSubServiceForm == old(showSubServiceForm)
        && errors == Validate(formData, clothingItems)
    {
      saved := ValidateForm();
      if saved {
        var entry := SavedSubService(newId, formData, clothingItems);
        savedSubServices := savedSubServices + [entry];
        formData := InitialDraft;
        clothingItems := [];
        errors := {};
        showSubServiceForm := false;
      }
    }

    /** The close button of the whole card: clears the service, the saved
        sub-services, the draft, its items and the errors, and hides the
        sub-service form; the picker's selection is kept. */
    method HandleCancel()
      requires Valid()
      modifies this`serviceName, this`showSubServiceForm, this`savedSubServices,
               this`formData, this`clothingItems, this`errors
      ensures Valid()
      ensures serviceName == "" && !showSubServiceForm && savedSubServices == []
      ensures formData == InitialDraft && clothingItems == [] && errors == {}
    {
      serviceName := "";
      showSubServiceForm := false;
      savedSubServices := [];
      formData := InitialDraft;
      clothingItems := [];
      errors := {};
    }
  }
}
