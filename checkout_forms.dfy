/**
 * `OrderForm` (checkout/forms.py): its constructor adds Bootstrap classes,
 * fills in missing placeholders and marks five fields required; its
 * `clean_country` hook normalises the country code.
 */
module CheckoutForms {
  import opened Wrappers
  import opened Text
  import PyDict
  import opened FormFields

  const CountryError: string := "Please select a valid 2-letter country code."

  /** `Meta.fields`, in order. */
  const OrderFieldNames: seq<string> := [
    "full_name", "email", "phone_number", "country", "postcode", "town_or_city",
    "street_address1", "street_address2"
  ]

  /** The fields the constructor makes required, in the order it sets them. */
  const RequiredNames: seq<string> := ["full_name", "email", "street_address1", "town_or_city", "country"]

  /** The placeholders the constructor sets by default, in the order it sets them. */
  const DefaultPlaceholders: seq<(string, string)> := [
    ("full_name", "Full name"),
    ("email", "name@example.com"),
    ("phone_number", "08x…"),
    ("street_address1", "Address line 1"),
    ("street_address2", "Address line 2 (optional)"),
    ("town_or_city", "Town / City"),
    ("postcode", "Eircode / Postcode")
  ]

  // ---------------------------------------------------------------------------
  // clean_country
  // ---------------------------------------------------------------------------

  /**
   * `clean_country`: `(value or "").strip().upper()`; a non-empty result of
   * any length but 2 raises the country error.
   */
  function CleanCountry(value: Option<string>): Result<string, string> {
    var v := Upper(Strip(value.GetOr("")));
    if v != "" && |v| != 2 then Err(CountryError) else Ok(v)
  }

  /** Upper-casing keeps a stripped text stripped. */
  lemma UpperKeepsStripped(s: string)
    requires IsStripped(s)
    ensures IsStripped(Upper(s))
  {
    if s != [] {
      assert !IsSpace(UpperChar(s[0])) && !IsSpace(UpperChar(s[|s| - 1]));
    }
  }

  /**
   * A missing or blank value gives the empty code; otherwise the result is
   * the stripped, upper-cased value, accepted exactly when it has length 2.
   * An accepted code is stripped and holds no lower-case letter.
   */
  lemma CleanCountrySpec(value: Option<string>)
    ensures value.None? ==> CleanCountry(value) == Ok("")
    ensures var v := Upper(Strip(value.GetOr("")));
      && (CleanCountry(value).Ok? <==> v == "" || |v| == 2)
      && (CleanCountry(value).Ok? ==> CleanCountry(value).value == v)
      && (CleanCountry(value).Err? ==> CleanCountry(value).error == CountryError)
    ensures CleanCountry(value).Ok? ==>
      var r := CleanCountry(value).value;
      IsStripped(r) && forall i :: 0 <= i < |r| ==> !IsLower(r[i])
  {
    StripSpec(value.GetOr(""));
    UpperKeepsStripped(Strip(value.GetOr("")));
  }

  /** Cleaning is idempotent: a cleaned code cleans to itself. */
  lemma CleanCountryIdempotent(value: Option<string>)
    requires CleanCountry(value).Ok?
    ensures CleanCountry(Some(CleanCountry(value).value)) == CleanCountry(value)
  {
    var s := Strip(value.GetOr(""));
    StripSpec(value.GetOr(""));
    UpperKeepsStripped(s);
    StripOfStripped(Upper(s));
    UpperIdempotent(s);
  }

  /** Examples: lower case and surrounding blanks are normalised; a three-letter code is refused. */
  lemma CleanCountryExamples()
    ensures CleanCountry(Some(" ie ")) == Ok("IE")
    ensures CleanCountry(Some("")) == Ok("")
    ensures CleanCountry(Some("irl")) == Err(CountryError)
  {
    assert LeadingSpaces(" ie ") == 1;
    assert TrimStart(" ie ") == "ie ";
    assert TrailingSpaces("ie ") == 1;
    assert TrimEnd("ie ") == "ie";
    assert Upper("ie") == "IE";
    StripNoSpace("irl");
  }

  // ---------------------------------------------------------------------------
  // The constructor
  // ---------------------------------------------------------------------------

  /** The class word a widget kind gets, with its leading space; other widgets get none. */
  function ClassSuffix(kind: WidgetKind): Option<string> {
    match kind
    case TextInput => Some(" form-control")
    case EmailInput => Some(" form-control")
    case NumberInput => Some(" form-control")
    case Select => Some(" form-select")
    case _ => None
  }

  /** `widget.attrs.get("class", "")` */
  function ExistingClass(f: Field): string {
    match GetAttr(f, "class")
    case Some(AText(t)) => t
    case _ => ""
  }

  /** `widget.attrs["class"] = (existing + suffix).strip()` for the widgets that get a class. */
  function WithBootstrapClass(f: Field): Field {
    match ClassSuffix(f.kind)
    case None => f
    case Some(suffix) => SetAttr(f, "class", AText(Strip(ExistingClass(f) + suffix)))
  }

  /** The first loop over `self.fields.items()`. */
  function WithClasses(fs: Fields): (r: Fields)
    ensures |r| == |fs| && forall i :: 0 <= i < |fs| ==> r[i].0 == fs[i].0
  {
    seq(|fs|, i requires 0 <= i < |fs| => (fs[i].0, WithBootstrapClass(fs[i].1)))
  }

  /**
   * `self.fields[name].widget.attrs.setdefault("placeholder", text)`. Every
   * name the constructor uses is in `Meta.fields`, so the `KeyError` branch
   * (an absent name, left unchanged here) is never taken on an order form.
   */
  function SetDefaultPlaceholder(fs: Fields, name: string, text: string): (r: Fields)
    ensures PyDict.Keys(r) == PyDict.Keys(fs)
  {
    match FieldOf(fs, name)
    case None => fs
    case Some(f) => UpdateField(fs, name, SetDefaultAttr(f, "placeholder", AText(text)))
  }

  /** The seven placeholder statements, in order. */
  function Placed(fs: Fields): (r: Fields)
    ensures PyDict.Keys(r) == PyDict.Keys(fs)
  {
    var fs1 := SetDefaultPlaceholder(fs, "full_name", "Full name");
    var fs2 := SetDefaultPlaceholder(fs1, "email", "name@example.com");
    var fs3 := SetDefaultPlaceholder(fs2, "phone_number", "08x…");
    var fs4 := SetDefaultPlaceholder(fs3, "street_address1", "Address line 1");
    var fs5 := SetDefaultPlaceholder(fs4, "street_address2", "Address line 2 (optional)");
    var fs6 := SetDefaultPlaceholder(fs5, "town_or_city", "Town / City");
    SetDefaultPlaceholder(fs6, "postcode", "Eircode / Postcode")
  }

  /** The placeholder the constructor gives a field that has none. */
  function DefaultPlaceholder(name: string): Option<string> {
    if name == "full_name" then Some("Full name")
    else if name == "email" then Some("name@example.com")
    else if name == "phone_number" then Some("08x…")
    else if name == "street_address1" then Some("Address line 1")
    else if name == "street_address2" then Some("Address line 2 (optional)")
    else if name == "town_or_city" then Some("Town / City")
    else if name == "postcode" then Some("Eircode / Postcode")
    else None
  }

  /** `self.fields[name].required = True`, on a name of `Meta.fields`. */
  function MakeRequired(fs: Fields, name: string): (r: Fields)
    ensures PyDict.Keys(r) == PyDict.Keys(fs)
  {
    match FieldOf(fs, name)
    case None => fs
    case Some(f) => UpdateField(fs, name, f.(required := true))
  }

  /** The required loop over `names`. */
  function WithRequired(fs: Fields, names: seq<string>): (r: Fields)
    ensures PyDict.Keys(r) == PyDict.Keys(fs)
  {
    if names == [] then fs else MakeRequired(WithRequired(fs, names[..|names| - 1]), names[|names| - 1])
  }

  /** The form's fields hold every name of `Meta.fields`. */
  predicate HasOrderFields(fs: Fields) {
    forall n <- OrderFieldNames :: n in PyDict.Keys(fs)
  }

  /** The fields after the constructor. */
  function Initialised(fs: Fields): Fields {
    WithRequired(Placed(WithClasses(fs)), RequiredNames)
  }

  /** The class loop. */
  method AddClasses(fs: Fields) returns (r: Fields)
    ensures r == WithClasses(fs)
  {
    r := fs;
    for i := 0 to |r|
      invariant |r| == |fs|
      invariant forall j :: 0 <= j < i ==> r[j] == (fs[j].0, WithBootstrapClass(fs[j].1))
      invariant forall j :: i <= j < |r| ==> r[j] == fs[j]
    {
      var name := r[i].0;
      var field := r[i].1;
      var suffix := ClassSuffix(field.kind);
      if suffix.Some? {
        var existing := ExistingClass(field);
        field := SetAttr(field, "class", AText(Strip(existing + suffix.value)));
      }
      r := r[i := (name, field)];
    }
  }

  /** The required loop, over `names` (`RequiredNames` in the constructor). */
  method AddRequired(fs: Fields, names: seq<string>) returns (r: Fields)
    ensures r == WithRequired(fs, names)
  {
    r := fs;
    for i := 0 to |names|
      invariant r == WithRequired(fs, names[..i])
    {
      assert names[..i + 1][..i] == names[..i];
      r := MakeRequired(r, names[i]);
    }
    assert names[..|names|] == names;
  }

  /**
   * `OrderForm`. The fields Django builds from `Meta.fields` and
   * `Meta.widgets` come in as the constructor's argument.
   */
  class OrderForm {
    var fields: Fields

    /** `__init__`: classes, default placeholders, required fields. */
    constructor(initial: Fields)
      requires HasOrderFields(initial)
      ensures fields == Initialised(initial)
    {
      var fs := AddClasses(initial);
      fs := SetDefaultPlaceholder(fs, "full_name", "Full name");
      fs := SetDefaultPlaceholder(fs, "email", "name@example.com");
      fs := SetDefaultPlaceholder(fs, "phone_number", "08x…");
      fs := SetDefaultPlaceholder(fs, "street_address1", "Address line 1");
      fs := SetDefaultPlaceholder(fs, "street_address2", "Address line 2 (optional)");
      fs := SetDefaultPlaceholder(fs, "town_or_city", "Town / City");
      fs := SetDefaultPlaceholder(fs, "postcode", "Eircode / Postcode");
      fs := AddRequired(fs, RequiredNames);
      fields := fs;
    }
  }

  // ---------------------------------------------------------------------------
  // What the constructor does to each field
  // ---------------------------------------------------------------------------

  /**
   * Text, e-mail and number widgets get `form-control` appended to their
   * class, selects get `form-select`, trimmed; on a stripped existing class
   * that is the class, a space and the word, or the word alone when there
   * was no class. Other widgets and every other attribute stay.
   */
  lemma BootstrapClassSpec(f: Field)
    requires IsStripped(ExistingClass(f))
    ensures var r := WithBootstrapClass(f);
      && r.caption == f.caption && r.required == f.required && r.kind == f.kind
      && (forall k :: k != "class" ==> GetAttr(r, k) == GetAttr(f, k))
      && GetAttr(r, "class")
         == match ClassSuffix(f.kind)
            case None => GetAttr(f, "class")
            case Some(suffix) =>
              Some(AText(if ExistingClass(f) == "" then suffix[1..] else ExistingClass(f) + suffix))
  {
    match ClassSuffix(f.kind)
    case None =>
    case Some(suffix) =>
      SetAttrSpec(f, "class", AText(Strip(ExistingClass(f) + suffix)));
      StripAppendWord(ExistingClass(f), suffix);
  }

  /** Appending a space and a word to a stripped class and stripping gives the class, a space and the word, or the word alone. */
  lemma StripAppendWord(e: string, suffix: string)
    requires IsStripped(e)
    requires suffix == " form-control" || suffix == " form-select"
    ensures Strip(e + suffix) == if e == "" then suffix[1..] else e + suffix
  {
    if e == "" {
      assert LeadingSpaces(suffix) == 1 by {
        assert LeadingSpaces(suffix[1..]) == 0;
      }
      assert TrimStart(suffix) == suffix[1..];
      StripOfStripped(suffix[1..]);
      assert e + suffix == suffix;
    } else {
      assert IsStripped(e + suffix) by {
        assert (e + suffix)[0] == e[0];
      }
      StripOfStripped(e + suffix);
    }
  }

  /** In a valid dict the class loop changes each field by itself, looked up by name. */
  lemma WithClassesGet(fs: Fields, n: string)
    requires PyDict.Valid(fs)
    ensures PyDict.Valid(WithClasses(fs))
    ensures FieldOf(WithClasses(fs), n)
      == match FieldOf(fs, n) case None => None case Some(f) => Some(WithBootstrapClass(f))
  {
    var r := WithClasses(fs);
    WithClassesValid(fs);
    match FieldOf(fs, n)
    case None =>
      assert PyDict.Keys(r) == PyDict.Keys(fs);
    case Some(f) =>
      PyDict.GetIn(fs, n);
      var i :| 0 <= i < |fs| && fs[i] == (n, f);
      PyDict.GetAt(r, i);
  }

  /** The class loop keeps every name where it was, so a valid dict stays valid. */
  lemma WithClassesValid(fs: Fields)
    requires PyDict.Valid(fs)
    ensures PyDict.Valid(WithClasses(fs))
  {
    var r := WithClasses(fs);
    forall i, j | 0 <= i < j < |r| ensures r[i].0 != r[j].0 {
      assert r[i].0 == fs[i].0 && r[j].0 == fs[j].0;
    }
  }

  /** One placeholder statement changes only the named field, and that one only by `setdefault`. */
  lemma SetDefaultPlaceholderGet(fs: Fields, name: string, text: string, n: string)
    ensures FieldOf(SetDefaultPlaceholder(fs, name, text), n)
      == if n == name && FieldOf(fs, n).Some?
         then Some(SetDefaultAttr(FieldOf(fs, n).value, "placeholder", AText(text)))
         else FieldOf(fs, n)
  {
    match FieldOf(fs, name)
    case None =>
    case Some(f) =>
      UpdateFieldGet(fs, name, SetDefaultAttr(f, "placeholder", AText(text)), n);
  }

  /** After the seven statements each field has had `setdefault` applied with its default text, if it has one. */
  lemma PlacedGet(fs: Fields, n: string)
    ensures FieldOf(Placed(fs), n)
      == match FieldOf(fs, n)
         case None => None
         case Some(f) =>
           Some(if DefaultPlaceholder(n).Some? then SetDefaultAttr(f, "placeholder", AText(DefaultPlaceholder(n).value)) else f)
  {
    var fs1 := SetDefaultPlaceholder(fs, "full_name", "Full name");
    var fs2 := SetDefaultPlaceholder(fs1, "email", "name@example.com");
    var fs3 := SetDefaultPlaceholder(fs2, "phone_number", "08x…");
    var fs4 := SetDefaultPlaceholder(fs3, "street_address1", "Address line 1");
    var fs5 := SetDefaultPlaceholder(fs4, "street_address2", "Address line 2 (optional)");
    var fs6 := SetDefaultPlaceholder(fs5, "town_or_city", "Town / City");
    SetDefaultPlaceholderGet(fs, "full_name", "Full name", n);
    SetDefaultPlaceholderGet(fs1, "email", "name@example.com", n);
    SetDefaultPlaceholderGet(fs2, "phone_number", "08x…", n);
    SetDefaultPlaceholderGet(fs3, "street_address1", "Address line 1", n);
    SetDefaultPlaceholderGet(fs4, "street_address2", "Address line 2 (optional)", n);
    SetDefaultPlaceholderGet(fs5, "town_or_city", "Town / City", n);
    SetDefaultPlaceholderGet(fs6, "postcode", "Eircode / Postcode", n);
  }

  /** `setdefault("placeholder", text)` keeps a present placeholder, adds a missing one, and touches nothing else. */
  lemma SetDefaultPlaceholderSpec(f: Field, text: string)
    ensures var g := SetDefaultAttr(f, "placeholder", AText(text));
      && g.caption == f.caption && g.required == f.required && g.kind == f.kind
      && GetAttr(g, "placeholder") == (if GetAttr(f, "placeholder").Some? then GetAttr(f, "placeholder") else Some(AText(text)))
      && GetAttr(g, "class") == GetAttr(f, "class")
  {
    SetDefaultAttrSpec(f, "placeholder", AText(text));
  }

  /** One required statement changes only the named field, and that one only in its flag. */
  lemma MakeRequiredGet(fs: Fields, name: string, n: string)
    ensures FieldOf(MakeRequired(fs, name), n)
      == if n == name && FieldOf(fs, n).Some? then Some(FieldOf(fs, n).value.(required := true)) else FieldOf(fs, n)
  {
    match FieldOf(fs, name)
    case None =>
    case Some(f) =>
      UpdateFieldGet(fs, name, f.(required := true), n);
  }

  /**
   * The required loop: each listed field becomes required; every other
   * field, and everything else about the listed ones, stays.
   */
  lemma {:induction false} WithRequiredGet(fs: Fields, names: seq<string>, n: string)
    ensures FieldOf(WithRequired(fs, names), n)
      == match FieldOf(fs, n)
         case None => None
         case Some(f) => Some(f.(required := f.required || n in names))
  {
    if names != [] {
      var init := names[..|names| - 1];
      WithRequiredGet(fs, init, n);
      MakeRequiredGet(WithRequired(fs, init), names[|names| - 1], n);
      assert names == init + [names[|names| - 1]];
      assert n in names <==> n in init || n == names[|names| - 1];
    }
  }

  /** The class step keeps label, flag, widget and placeholder. */
  lemma ClassStepSpec(f: Field)
    ensures var c := WithBootstrapClass(f);
      && c.caption == f.caption && c.required == f.required && c.kind == f.kind
      && GetAttr(c, "placeholder") == GetAttr(f, "placeholder")
  {
    if ClassSuffix(f.kind).Some? {
      SetAttrSpec(f, "class", AText(Strip(ExistingClass(f) + ClassSuffix(f.kind).value)));
    }
  }

  /**
   * What the constructor does to each field of a valid field dict: its
   * label and widget stay; it becomes required when the constructor lists it;
   * its class gains `form-control` or `form-select` according to its widget;
   * it keeps its placeholder, or gets the constructor's default when it had
   * none.
   */
  lemma InitialisedSpec(fs: Fields, n: string)
    requires PyDict.Valid(fs) && FieldOf(fs, n).Some?
    ensures var f := FieldOf(fs, n).value;
      FieldOf(Initialised(fs), n).Some?
      && var g := FieldOf(Initialised(fs), n).value;
      && g.caption == f.caption && g.kind == f.kind
      && g.required == (f.required || n in RequiredNames)
      && GetAttr(g, "class") == GetAttr(WithBootstrapClass(f), "class")
      && GetAttr(g, "placeholder")
         == if GetAttr(f, "placeholder").Some? || DefaultPlaceholder(n).None? then GetAttr(f, "placeholder")
            else Some(AText(DefaultPlaceholder(n).value))
  {
    var f := FieldOf(fs, n).value;
    WithClassesGet(fs, n);
    var c := WithBootstrapClass(f);
    ClassStepSpec(f);
    PlacedGet(WithClasses(fs), n);
    var p := if DefaultPlaceholder(n).Some? then SetDefaultAttr(c, "placeholder", AText(DefaultPlaceholder(n).value)) else c;
    assert FieldOf(Placed(WithClasses(fs)), n) == Some(p);
    if DefaultPlaceholder(n).Some? {
      SetDefaultPlaceholderSpec(c, DefaultPlaceholder(n).value);
    }
    WithRequiredGet(Placed(WithClasses(fs)), RequiredNames, n);
    var g := p.(required := p.required || n in RequiredNames);
    assert FieldOf(Initialised(fs), n) == Some(g);
    assert GetAttr(g, "class") == GetAttr(p, "class");
    assert GetAttr(g, "placeholder") == GetAttr(p, "placeholder");
  }
}
