/** The pure list computations inside the form's handlers: the wash-type
    toggle (`includes` / `filter` / spread), the clothing-item removal
    (`filter` on the id) and the clothing-item price edit (`map` with a
    spread of the matching item). */
module ListEdits {
  import opened FormData

  /** `ws.filter(x => x !== t)`: every occurrence of `t` dropped, the rest kept in order. */
  function WithoutWash(ws: seq<WashType>, t: WashType): (r: seq<WashType>)
    ensures forall x :: x in r <==> x in ws && x != t
    ensures t !in ws ==> r == ws
    ensures NoDuplicates(ws) ==> NoDuplicates(r)
    ensures |r| <= |ws|
  {
    if ws == [] then []
    else if ws[0] == t then WithoutWash(ws[1..], t)
    else
      var rest := WithoutWash(ws[1..], t);
      assert NoDuplicates(ws) ==> ws[0] !in ws[1..];
      [ws[0]] + rest
  }

  /** The new wash-type list after ticking or unticking `t`: removed when
      present, appended at the end when absent. */
  function Toggle(ws: seq<WashType>, t: WashType): (r: seq<WashType>)
    ensures t in r <==> t !in ws
    ensures forall x :: x != t ==> (x in r <==> x in ws)
    ensures NoDuplicates(ws) ==> NoDuplicates(r)
  {
    if t in ws then WithoutWash(ws, t) else ws + [t]
  }

  /** Filtering drops an appended occurrence of the filtered value. */
  lemma {:induction false} WithoutWashAppended(ws: seq<WashType>, t: WashType)
    ensures WithoutWash(ws + [t], t) == WithoutWash(ws, t)
  {
    if ws != [] {
      assert (ws + [t])[1..] == ws[1..] + [t];
      WithoutWashAppended(ws[1..], t);
    }
  }

  /** Toggling the same wash type twice gives back the same set of wash
      types, and exactly the same list when the type was not ticked. */
  lemma ToggleTwice(ws: seq<WashType>, t: WashType)
    ensures forall x :: x in Toggle(Toggle(ws, t), t) <==> x in ws
    ensures t !in ws ==> Toggle(Toggle(ws, t), t) == ws
  {
    if t !in ws {
      WithoutWashAppended(ws, t);
    }
  }

  /** When the type was ticked, unticking and re-ticking moves it to the end:
      the list is not restored exactly. */
  lemma ToggleTwiceReorders()
    ensures Toggle(Toggle([Standard, Express], Standard), Standard) == [Express, Standard]
  {
    assert WithoutWash([Standard, Express], Standard) == [Express] by {
      assert [Standard, Express][1..] == [Express];
      assert [Express][1..] == [];
    }
  }

  /** `items.filter(item => item.id !== id)`. */
  function WithoutItem(items: seq<ClothingItem>, id: string): (r: seq<ClothingItem>)
    ensures |r| <= |items|
  {
    if items == [] then []
    else if items[0].id == id then WithoutItem(items[1..], id)
    else [items[0]] + WithoutItem(items[1..], id)
  }

  /** Removal is a no-op when no item has the id. */
  lemma {:induction false} WithoutAbsentId(items: seq<ClothingItem>, id: string)
    requires !HasId(items, id)
    ensures WithoutItem(items, id) == items
  {
    if items != [] {
      assert items[0] in items;
      assert !HasId(items[1..], id) by {
        forall it | it in items[1..] ensures it.id != id {
          assert it in items;
        }
      }
      WithoutAbsentId(items[1..], id);
    }
  }

  /** Removal keeps exactly the items whose id differs. */
  lemma {:induction false} WithoutItemMembers(items: seq<ClothingItem>, id: string)
    ensures forall it :: it in WithoutItem(items, id) <==> it in items && it.id != id
  {
    if items != [] {
      WithoutItemMembers(items[1..], id);
      assert forall it :: it in items <==> it == items[0] || it in items[1..] by {
        assert items == [items[0]] + items[1..];
      }
    }
  }

  /** Removal keeps order: it distributes over concatenation. */
  lemma {:induction false} WithoutItemConcat(a: seq<ClothingItem>, b: seq<ClothingItem>, id: string)
    ensures WithoutItem(a + b, id) == WithoutItem(a, id) + WithoutItem(b, id)
  {
    if a == [] {
      assert a + b == b;
    } else {
      assert (a + b)[0] == a[0];
      assert (a + b)[1..] == a[1..] + b;
      WithoutItemConcat(a[1..], b, id);
    }
  }

  /** When no other item shares the id of the item at position `k` (as
      with distinct ids), removing that id drops exactly that item and
      keeps the others in order. */
  lemma {:induction false} RemoveUniqueId(items: seq<ClothingItem>, k: nat)
    requires k < |items|
    requires forall j | 0 <= j < |items| && j != k :: items[j].id != items[k].id
    ensures WithoutItem(items, items[k].id) == items[..k] + items[k + 1..]
  {
    var id := items[k].id;
    var tail := items[1..];
    if k == 0 {
      UniqueHeadIdAbsentFromTail(items);
      assert items[..0] + items[1..] == tail;
    } else {
      UniqueIdInTail(items, k);
      calc {
        WithoutItem(items, id);
        { assert items[0].id != id; }
        [items[0]] + WithoutItem(tail, id);
        { RemoveUniqueId(tail, k - 1); }
        [items[0]] + (tail[..k - 1] + tail[k..]);
        { SplitAfterHead(items, k); }
        items[..k] + items[k + 1..];
      }
    }
  }

  /** Removing a head id that no later item carries leaves the tail whole. */
  lemma UniqueHeadIdAbsentFromTail(items: seq<ClothingItem>)
    requires 0 < |items|
    requires forall j | 0 < j < |items| :: items[j].id != items[0].id
    ensures WithoutItem(items[1..], items[0].id) == items[1..]
  {
    forall it | it in items[1..] ensures it.id != items[0].id {
      var i :| 0 <= i < |items| - 1 && items[1..][i] == it;
      assert items[i + 1] == it;
    }
    WithoutAbsentId(items[1..], items[0].id);
  }

  /** Uniqueness of the id at position `k > 0` carries over to the tail. */
  lemma UniqueIdInTail(items: seq<ClothingItem>, k: nat)
    requires 0 < k < |items|
    requires forall j | 0 <= j < |items| && j != k :: items[j].id != items[k].id
    ensures items[1..][k - 1] == items[k]
    ensures forall j | 0 <= j < |items| - 1 && j != k - 1 :: items[1..][j].id != items[1..][k - 1].id
  {
    forall j | 0 <= j < |items| - 1 && j != k - 1 ensures items[1..][j].id != items[1..][k - 1].id {
      assert items[1..][j] == items[j + 1];
    }
  }

  /** Sequence arithmetic for `RemoveUniqueId`. */
  lemma SplitAfterHead(items: seq<ClothingItem>, k: nat)
    requires 0 < k < |items|
    ensures [items[0]] + (items[1..][..k - 1] + items[1..][k..]) == items[..k] + items[k + 1..]
  {
    assert items[..k] == [items[0]] + items[1..][..k - 1];
    assert items[k + 1..] == items[1..][k..];
  }

  /** Prepending an item whose id is new keeps ids distinct. */
  lemma ConsKeepsDistinctIds(x: ClothingItem, s: seq<ClothingItem>)
    requires DistinctIds(s)
    requires forall j | 0 <= j < |s| :: s[j].id != x.id
    ensures DistinctIds([x] + s)
  {
    var r := [x] + s;
    forall i, j | 0 <= i < j < |r| ensures r[i].id != r[j].id {
      assert r[j] == s[j - 1];
      if i > 0 {
        assert r[i] == s[i - 1];
      }
    }
  }

  /** The tail of a list with distinct ids has distinct ids, none of them
      the head's. */
  lemma TailOfDistinctIds(items: seq<ClothingItem>)
    requires DistinctIds(items) && items != []
    ensures DistinctIds(items[1..])
    ensures forall it | it in items[1..] :: it.id != items[0].id
  {
    var tail := items[1..];
    forall i, j | 0 <= i < j < |tail| ensures tail[i].id != tail[j].id {
      assert tail[i] == items[i + 1] && tail[j] == items[j + 1];
    }
    forall it | it in tail ensures it.id != items[0].id {
      var i :| 0 <= i < |tail| && tail[i] == it;
      assert items[i + 1] == it;
    }
  }

  /** Removal keeps ids distinct. */
  lemma {:induction false} WithoutItemKeepsDistinctIds(items: seq<ClothingItem>, id: string)
    requires DistinctIds(items)
    ensures DistinctIds(WithoutItem(items, id))
  {
    if items != [] {
      TailOfDistinctIds(items);
      WithoutItemKeepsDistinctIds(items[1..], id);
      if items[0].id != id {
        var rest := WithoutItem(items[1..], id);
        WithoutItemMembers(items[1..], id);
        forall j | 0 <= j < |rest| ensures rest[j].id != items[0].id {
          assert rest[j] in rest;
        }
        ConsKeepsDistinctIds(items[0], rest);
      }
    }
  }

  /** Prepending an item whose clothing type is new keeps clothing types
      distinct. */
  lemma ConsKeepsDistinctTypes(x: ClothingItem, s: seq<ClothingItem>)
    requires DistinctTypes(s)
    requires forall j | 0 <= j < |s| :: s[j].clothingType != x.clothingType
    ensures DistinctTypes([x] + s)
  {
    var r := [x] + s;
    forall i, j | 0 <= i < j < |r| ensures r[i].clothingType != r[j].clothingType {
      assert r[j] == s[j - 1];
      if i > 0 {
        assert r[i] == s[i - 1];
      }
    }
  }

  /** The tail of a list with distinct clothing types has distinct clothing
      types, none of them the head's. */
  lemma TailOfDistinctTypes(items: seq<ClothingItem>)
    requires DistinctTypes(items) && items != []
    ensures DistinctTypes(items[1..])
    ensures forall it | it in items[1..] :: it.clothingType != items[0].clothingType
  {
    var tail := items[1..];
    forall i, j | 0 <= i < j < |tail| ensures tail[i].clothingType != tail[j].clothingType {
      assert tail[i] == items[i + 1] && tail[j] == items[j + 1];
    }
    forall it | it in tail ensures it.clothingType != items[0].clothingType {
      var i :| 0 <= i < |tail| && tail[i] == it;
      assert items[i + 1] == it;
    }
  }

  /** Removal keeps clothing types distinct. */
  lemma {:induction false} WithoutItemKeepsDistinctTypes(items: seq<ClothingItem>, id: string)
    requires DistinctTypes(items)
    ensures DistinctTypes(WithoutItem(items, id))
  {
    if items != [] {
      TailOfDistinctTypes(items);
      WithoutItemKeepsDistinctTypes(items[1..], id);
      if items[0].id != id {
        var rest := WithoutItem(items[1..], id);
        WithoutItemMembers(items[1..], id);
        forall j | 0 <= j < |rest| ensures rest[j].clothingType != items[0].clothingType {
          assert rest[j] in rest;
        }
        ConsKeepsDistinctTypes(items[0], rest);
      }
    }
  }

  /** `items.map(item => item.id === id ? { ...item, [f]: v } : item)`,
      element by element. */
  function UpdateItems(items: seq<ClothingItem>, id: string, f: PriceField, v: string): (r: seq<ClothingItem>)
    ensures |r| == |items|
    ensures forall i | 0 <= i < |r| :: r[i] == if items[i].id == id then SetPrice(items[i], f, v) else items[i]
  {
    if items == [] then []
    else
      var head := if items[0].id == id then SetPrice(items[0], f, v) else items[0];
      var rest := UpdateItems(items[1..], id, f, v);
      assert forall i | 1 <= i < |items| :: ([head] + rest)[i] == rest[i - 1] && items[1..][i - 1] == items[i];
      [head] + rest
  }

  /** The price edit keeps the length, every id and every clothing type;
      only the price field `f` of the items with id `id` takes the value
      `v`, and every other price of every item is kept. */
  lemma UpdateItemsPrices(items: seq<ClothingItem>, id: string, f: PriceField, v: string)
    ensures |UpdateItems(items, id, f, v)| == |items|
    ensures forall i | 0 <= i < |items| ::
      && UpdateItems(items, id, f, v)[i].id == items[i].id
      && UpdateItems(items, id, f, v)[i].clothingType == items[i].clothingType
    ensures forall i, w | 0 <= i < |items| ::
      Price(UpdateItems(items, id, f, v)[i], w)
      == if items[i].id == id && FieldFor(w) == f then v else Price(items[i], w)
  {
    var r := UpdateItems(items, id, f, v);
    forall i, w | 0 <= i < |items|
      ensures Price(r[i], w) == if items[i].id == id && FieldFor(w) == f then v else Price(items[i], w)
    {
      if items[i].id == id {
        assert r[i] == SetPrice(items[i], f, v);
      }
    }
  }

  /** The price edit changes no id, so ids stay distinct. */
  lemma UpdateItemsKeepsDistinctIds(items: seq<ClothingItem>, id: string, f: PriceField, v: string)
    requires DistinctIds(items)
    ensures DistinctIds(UpdateItems(items, id, f, v))
  {
    var r := UpdateItems(items, id, f, v);
    UpdateItemsPrices(items, id, f, v);
    forall i, j | 0 <= i < j < |r| ensures r[i].id != r[j].id {
      assert r[i].id == items[i].id && r[j].id == items[j].id;
    }
  }

  /** The price edit changes no clothing type, so types stay distinct and
      the same types are listed. */
  lemma UpdateItemsKeepsTypes(items: seq<ClothingItem>, id: string, f: PriceField, v: string)
    ensures DistinctTypes(items) ==> DistinctTypes(UpdateItems(items, id, f, v))
    ensures forall t :: HasType(UpdateItems(items, id, f, v), t) <==> HasType(items, t)
  {
    var r := UpdateItems(items, id, f, v);
    UpdateItemsPrices(items, id, f, v);
    if DistinctTypes(items) {
      forall i, j | 0 <= i < j < |r| ensures r[i].clothingType != r[j].clothingType {
        assert r[i].clothingType == items[i].clothingType && r[j].clothingType == items[j].clothingType;
      }
    }
    forall t ensures HasType(r, t) <==> HasType(items, t) {
      if HasType(r, t) {
        var it :| it in r && it.clothingType == t;
        var i :| 0 <= i < |r| && r[i] == it;
        assert items[i] in items;
      }
      if HasType(items, t) {
        var it :| it in items && it.clothingType == t;
        var i :| 0 <= i < |items| && items[i] == it;
        assert r[i] in r;
      }
    }
  }
}
