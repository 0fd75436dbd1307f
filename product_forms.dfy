/**
 * The staff product form (products/forms.py): price validation and the rule
 * that an edited product need not upload a new image.
 */
module ProductForms {
  import opened Wrappers
  import opened Catalog
  import PyDict
  import opened FormFields

  const PriceError := "Price must be zero or positive."
  const ImageField := "image"

  /**
   * `clean_price`: a missing price and any price of zero or more pass through
   * unchanged; a negative price is a ValidationError.
   */
  function CleanPrice(price: Option<Cents>): (r: Result<Option<Cents>, string>)
    ensures r.Ok? <==> (price.None? || price.value >= 0)
    ensures r.Ok? ==> r.value == price
    ensures r.Err? ==> r.error == PriceError
  {
    if price.Some? && price.value < 0 then Err(PriceError) else Ok(price)
  }

  /** A price that passed validation passes again, unchanged. */
  lemma CleanPriceIdempotent(price: Option<Cents>)
    requires CleanPrice(price).Ok?
    ensures CleanPrice(CleanPrice(price).value) == CleanPrice(price)
  {
  }

  /** Every accepted price is missing or non-negative: the form never hands a negative price on. */
  lemma CleanPriceNeverNegative(price: Option<Cents>)
    ensures CleanPrice(price).Ok? ==> CleanPrice(price).value.GetOr(0) >= 0
  {
  }

  lemma CleanPriceExamples()
    ensures CleanPrice(None) == Ok(None)
    ensures CleanPrice(Some(0)) == Ok(Some(0))
    ensures CleanPrice(Some(1250)) == Ok(Some(1250))
    ensures CleanPrice(Some(-1)) == Err(PriceError)
  {
  }

  /** Python truthiness of `instance.pk`: saved, with a non-zero key. */
  predicate IsSaved(pk: Option<int>) {
    pk.Some? && pk.value != 0
  }

  /**
   * The form's `__init__` after the model form has built its fields: when the
   * instance is saved, the image field stops being required.
   */
  function WithImageRule(fs: Fields, pk: Option<int>): (r: Fields)
    requires ImageField in PyDict.Keys(fs)
    ensures PyDict.Keys(r) == PyDict.Keys(fs)
  {
    if IsSaved(pk) then
      var image := FieldOf(fs, ImageField).value;
      UpdateField(fs, ImageField, image.(required := false))
    else
      fs
  }

  /**
   * Editing a saved product leaves the image optional and everything else as
   * the model form built it; a new product's fields are untouched.
   */
  lemma WithImageRuleSpec(fs: Fields, pk: Option<int>, n: string)
    requires ImageField in PyDict.Keys(fs)
    ensures IsSaved(pk) ==> !FieldOf(WithImageRule(fs, pk), ImageField).value.required
    ensures !IsSaved(pk) ==> WithImageRule(fs, pk) == fs
    ensures n != ImageField ==> FieldOf(WithImageRule(fs, pk), n) == FieldOf(fs, n)
    ensures FieldOf(WithImageRule(fs, pk), ImageField).Some?
    ensures var before, after := FieldOf(fs, ImageField).value, FieldOf(WithImageRule(fs, pk), ImageField).value;
      && after.caption == before.caption && after.kind == before.kind && after.attrs == before.attrs
  {
    if IsSaved(pk) {
      var image := FieldOf(fs, ImageField).value;
      UpdateFieldGet(fs, ImageField, image.(required := false), n);
      UpdateFieldGet(fs, ImageField, image.(required := false), ImageField);
    }
  }

  /**
   * The image column is `blank=True`, so the model form already builds the
   * image field as optional; with that field the form never requires an
   * image, saved or not.
   */
  lemma ImageNeverRequired(fs: Fields, pk: Option<int>)
    requires ImageField in PyDict.Keys(fs)
    requires !FieldOf(fs, ImageField).value.required
    ensures !FieldOf(WithImageRule(fs, pk), ImageField).value.required
  {
    WithImageRuleSpec(fs, pk, ImageField);
  }
}
