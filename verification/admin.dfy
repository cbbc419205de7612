/** The catalog administration pages: `AdminPage` adds a product from its
    entry fields and deletes a product after confirmation, and
    `AdminEditPage` saves the fields of one product back into the stored
    list, matching it by `Id`. The stored list is the content of
    `products.json`, passed in and returned; the JSON file I/O is outside this
    model. */
module Admin {
  import opened Wrappers
  import opened Strings
  import opened Numbers
  import opened Catalog

  /** The entry fields of a page; `None` is a null `Text` or an unset picker. */
  datatype ProductForm = ProductForm(name: Option<string>, category: Option<string>,
                                     quantityType: Option<string>, imagePath: Option<string>,
                                     priceText: Option<string>)

  const FillAllFields: string := "Please fill all fields."
  const InvalidPrice: string := "Please enter a valid price."
  /** "Please fill in all the fields", in Polish. */
  const EditFillAllFields: string := "Prosz\U{0119} uzupe\U{0142}ni\U{0107} wszystkie pola."

  /** The fields `OnAddProductClicked` requires: four non-empty texts and a
      price text that is not blank. */
  predicate AddFieldsMissing(f: ProductForm)
  {
    || IsNullOrEmpty(f.name) || IsNullOrEmpty(f.category) || IsNullOrEmpty(f.quantityType)
    || IsNullOrEmpty(f.imagePath) || IsNullOrWhiteSpace(f.priceText)
  }

  /** `decimal.TryParse` of a text that may be null. */
  function ParsePrice(text: Option<string>): Option<real>
  {
    match text
    case None => None
    case Some(t) => ParseDecimal(t)
  }

  /** The product `OnAddProductClicked` builds: `Id` is never set, so it is 0. */
  function NewProduct(f: ProductForm, price: real): Product
    requires !AddFieldsMissing(f)
  {
    Product(0, f.name.value, f.category.value, f.imagePath.value, f.quantityType.value, price)
  }

  /** `OnAddProductClicked`: validates the fields, then the price, and
      appends the new product to the stored list. */
  function AddProduct(stored: seq<Product>, f: ProductForm): (r: Result<seq<Product>, string>)
    ensures AddFieldsMissing(f) ==> r == Failure(FillAllFields)
    ensures !AddFieldsMissing(f) && (ParsePrice(f.priceText).None? || ParsePrice(f.priceText).value < 0.0)
            ==> r == Failure(InvalidPrice)
    ensures r.Success? <==> !AddFieldsMissing(f) && ParsePrice(f.priceText).Some? && ParsePrice(f.priceText).value >= 0.0
    ensures r.Success? ==> |r.value| == |stored| + 1 && r.value[..|stored|] == stored
    ensures r.Success? ==> var p := r.value[|stored|];
              && p.id == 0 && Some(p.name) == f.name && Some(p.category) == f.category
              && Some(p.quantityType) == f.quantityType && Some(p.imagePath) == f.imagePath
              && Some(p.price) == ParsePrice(f.priceText)
  {
    if AddFieldsMissing(f) then Failure(FillAllFields)
    else match ParsePrice(f.priceText)
      case None => Failure(InvalidPrice)
      case Some(price) =>
        if price < 0.0 then Failure(InvalidPrice)
        else Success(stored + [NewProduct(f, price)])
  }

  /** A price written as a plain run of digits, "0" included, is accepted. */
  lemma AddAcceptsDigitPrice(stored: seq<Product>, f: ProductForm)
    requires !AddFieldsMissing(f)
    requires AllDigits(f.priceText.value)
    ensures AddProduct(stored, f) == Success(stored + [NewProduct(f, DigitsValue(f.priceText.value) as real)])
  {
    assert |f.priceText.value| > 0;
    ParseDecimalOfDigits(f.priceText.value);
  }

  /** `OnDeleteButtonClicked`: the product of the pressed button, given by its
      position in the page's list, is removed only after the user confirms;
      the result tells whether the list was saved. `None` means only that the
      button's `CommandParameter` is not a product. A product no longer in
      the list has a position outside it: after confirmation nothing is
      removed, yet the list is still saved. */
  function DeleteProduct(products: seq<Product>, target: Option<int>, confirmed: bool): (r: (seq<Product>, bool))
    ensures !confirmed || target.None? ==> r == (products, false)
    ensures confirmed && target.Some? && 0 <= target.value < |products| ==>
              r.1 && |r.0| == |products| - 1
              && r.0[..target.value] == products[..target.value]
              && r.0[target.value..] == products[target.value + 1..]
    ensures confirmed && target.Some? ==> r.1
    ensures confirmed && target.Some? && !(0 <= target.value < |products|) ==> r.0 == products
  {
    match target
    case None => (products, false)
    case Some(i) =>
      if !confirmed then (products, false)
      else if 0 <= i < |products| then (products[..i] + products[i + 1..], true)
      else (products, true)
  }

  /** The fields `OnSaveChangesClicked` requires: three texts that are not
      blank, a picked quantity type, and a price text that parses. Negative
      prices are not rejected here. */
  predicate EditFieldsInvalid(f: ProductForm)
  {
    || IsNullOrWhiteSpace(f.name) || IsNullOrWhiteSpace(f.category) || f.quantityType.None?
    || IsNullOrWhiteSpace(f.imagePath) || ParsePrice(f.priceText).None?
  }

  /** The edited product: the form's five fields over the product's own `Id`. */
  function Edited(editing: Product, f: ProductForm): (p: Product)
    requires !EditFieldsInvalid(f)
    ensures p.id == editing.id
  {
    Product(editing.id, f.name.value, f.category.value, f.imagePath.value, f.quantityType.value,
            ParsePrice(f.priceText).value)
  }

  /** `FirstOrDefault(p => p.Id == id)`, as a position. */
  function FirstWithId(products: seq<Product>, id: int): (r: Option<int>)
    ensures r.Some? ==> 0 <= r.value < |products| && products[r.value].id == id
    ensures r.Some? ==> forall j :: 0 <= j < r.value ==> products[j].id != id
    ensures r.None? ==> forall j :: 0 <= j < |products| ==> products[j].id != id
  {
    if |products| == 0 then None
    else if products[0].id == id then Some(0)
    else match FirstWithId(products[1..], id)
      case None => None
      case Some(k) => Some(k + 1)
  }

  /** What a successful save leaves: the edited product and the stored list
      that is written back. */
  datatype Saved = Saved(product: Product, stored: seq<Product>)

  /** `OnSaveChangesClicked`: validates the fields, updates the edited
      product, and then overwrites the five fields of the first stored
      product with the same `Id`, or appends the product when none has it. */
  function SaveChanges(editing: Product, stored: seq<Product>, f: ProductForm): (r: Result<Saved, string>)
    ensures r.Failure? <==> EditFieldsInvalid(f)
    ensures r.Failure? ==> r.error == EditFillAllFields
    ensures r.Success? ==> var p := r.value.product;
              && p.id == editing.id && Some(p.name) == f.name && Some(p.category) == f.category
              && Some(p.quantityType) == f.quantityType && Some(p.imagePath) == f.imagePath
              && Some(p.price) == ParsePrice(f.priceText)
    ensures r.Success? && FirstWithId(stored, editing.id).Some? ==>
              var i := FirstWithId(stored, editing.id).value;
              |r.value.stored| == |stored|
              && r.value.stored[i] == r.value.product
              && forall j :: 0 <= j < |stored| && j != i ==> r.value.stored[j] == stored[j]
    ensures r.Success? && FirstWithId(stored, editing.id).None? ==>
              r.value.stored == stored + [r.value.product]
  {
    if EditFieldsInvalid(f) then Failure(EditFillAllFields)
    else
      var p := Edited(editing, f);
      match FirstWithId(stored, p.id)
      case Some(i) =>
        var q := stored[i].(name := p.name, category := p.category, quantityType := p.quantityType,
                            imagePath := p.imagePath, price := p.price);
        Success(Saved(p, stored[i := q]))
      case None => Success(Saved(p, stored + [p]))
  }

  /** No edit changes an `Id` in the stored list. */
  lemma SaveChangesKeepsIds(editing: Product, stored: seq<Product>, f: ProductForm)
    requires SaveChanges(editing, stored, f).Success?
    ensures var s := SaveChanges(editing, stored, f).value.stored;
            forall j :: 0 <= j < |stored| ==> s[j].id == stored[j].id
  {
  }

  /** A negative price is refused by the add page and saved by the edit page. */
  lemma NegativePriceOnlyEditable(stored: seq<Product>, editing: Product, f: ProductForm)
    requires !AddFieldsMissing(f) && !IsBlank(f.name.value) && !IsBlank(f.category.value)
    requires !IsBlank(f.imagePath.value)
    requires ParsePrice(f.priceText).Some? && ParsePrice(f.priceText).value < 0.0
    ensures AddProduct(stored, f) == Failure(InvalidPrice)
    ensures SaveChanges(editing, stored, f).Success?
    ensures SaveChanges(editing, stored, f).value.product.price < 0.0
  {
  }

  /** The `Id`s of the stored products are pairwise distinct. */
  predicate UniqueIds(products: seq<Product>)
  {
    forall i, j :: 0 <= i < j < |products| ==> products[i].id != products[j].id
  }

  /** With distinct `Id`s, saving a stored product writes the form into that
      product and leaves every other product as it was. */
  lemma SaveChangesHitsOwnProduct(stored: seq<Product>, k: int, f: ProductForm)
    requires UniqueIds(stored) && 0 <= k < |stored|
    requires !EditFieldsInvalid(f)
    ensures var s := SaveChanges(stored[k], stored, f).value.stored;
            s == stored[k := Edited(stored[k], f)]
  {
    var i := FirstWithId(stored, stored[k].id).value;
    assert i == k;
  }

  /** Every product that `AddProduct` appends gets `Id` 0, so two added
      products share it. Editing the second one then overwrites the first and
      leaves the second one as it was. */
  lemma AddedProductsShareIdZero(fa: ProductForm, fb: ProductForm, fe: ProductForm)
    requires AddProduct([], fa).Success? && AddProduct(AddProduct([], fa).value, fb).Success?
    requires !EditFieldsInvalid(fe)
    ensures var list := AddProduct(AddProduct([], fa).value, fb).value;
            && |list| == 2 && list[0].id == 0 && list[1].id == 0
            && var s := SaveChanges(list[1], list, fe).value.stored;
               s[0] == Edited(list[1], fe) && s[1] == list[1]
  {
    var list := AddProduct(AddProduct([], fa).value, fb).value;
    assert FirstWithId(list, 0) == Some(0);
  }

  /** The largest `Id` in the list, or 0 for an empty list. */
  function MaxId(products: seq<Product>): (m: int)
    ensures forall i :: 0 <= i < |products| ==> products[i].id <= m
    ensures |products| == 0 ==> m == 0
  {
    if |products| == 0 then 0
    else
      var rest := MaxId(products[1..]);
      if |products| == 1 || products[0].id > rest then products[0].id else rest
  }

  /** `AddProduct` with the new product's `Id` one above every stored `Id`. */
  function AddProductCorrected(stored: seq<Product>, f: ProductForm): (r: Result<seq<Product>, string>)
    ensures r.Success? <==> AddProduct(stored, f).Success?
    ensures r.Failure? ==> r == AddProduct(stored, f)
    ensures r.Success? ==> |r.value| == |stored| + 1 && r.value[..|stored|] == stored
    ensures r.Success? ==> r.value[|stored|] == AddProduct(stored, f).value[|stored|].(id := MaxId(stored) + 1)
  {
    match AddProduct(stored, f)
    case Failure(e) => Failure(e)
    case Success(list) => Success(stored + [list[|stored|].(id := MaxId(stored) + 1)])
  }

  /** The corrected add keeps the `Id`s distinct. */
  lemma AddCorrectedKeepsIdsUnique(stored: seq<Product>, f: ProductForm)
    requires UniqueIds(stored)
    requires AddProductCorrected(stored, f).Success?
    ensures UniqueIds(AddProductCorrected(stored, f).value)
  {
    var list := AddProductCorrected(stored, f).value;
    forall i, j | 0 <= i < j < |list|
      ensures list[i].id != list[j].id
    {
      if j == |stored| {
        assert list[i] == stored[i];
      } else {
        assert list[i] == stored[i] && list[j] == stored[j];
      }
    }
  }

  /** With the corrected add, editing the second of two added products
      changes that product and leaves the first one alone. */
  lemma AddedCorrectedProductsEditSeparately(fa: ProductForm, fb: ProductForm, fe: ProductForm)
    requires AddProductCorrected([], fa).Success?
    requires AddProductCorrected(AddProductCorrected([], fa).value, fb).Success?
    requires !EditFieldsInvalid(fe)
    ensures var list := AddProductCorrected(AddProductCorrected([], fa).value, fb).value;
            && |list| == 2
            && var s := SaveChanges(list[1], list, fe).value.stored;
               s[0] == list[0] && s[1] == Edited(list[1], fe)
  {
    var one := AddProductCorrected([], fa).value;
    AddCorrectedKeepsIdsUnique([], fa);
    AddCorrectedKeepsIdsUnique(one, fb);
    var list := AddProductCorrected(one, fb).value;
    SaveChangesHitsOwnProduct(list, 1, fe);
  }
}
