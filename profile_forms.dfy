/**
 * `UserProfileForm` (profiles/forms.py): its constructor decorates every
 * field (placeholder, CSS class, no label, autofocus), and its two
 * `clean_*` hooks validate the phone number and the postcode.
 */
module ProfileForms {
  import opened Wrappers
  import opened Text
  import PyDict
  import opened FormFields

  const PhoneField: string := "default_phone_number"
  const CountryField: string := "default_country"
  const InputClass: string := "border-black rounded-0 profile-form-input"
  const PhoneError: string := "Enter a valid phone number (7–15 digits, may start with '+')."
  const PostcodeError: string := "Enter a valid postcode (3–10 characters, letters/numbers, space or -)."

  /** `placeholders.get(field_name)`: the constructor's table of known placeholders. */
  function KnownPlaceholder(name: string): Option<string> {
    if name == "default_phone_number" then Some("Phone Number")
    else if name == "default_postcode" then Some("Postal Code")
    else if name == "default_town_or_city" then Some("Town or City")
    else if name == "default_street_address1" then Some("Street Address 1")
    else if name == "default_street_address2" then Some("Street Address 2")
    else if name == "default_county" then Some("County, State or Locality")
    else if name == "default_name" then Some("Full Name")
    else None
  }

  // ---------------------------------------------------------------------------
  // Validation
  // ---------------------------------------------------------------------------

  /** `\d{7,15}` over the whole text. */
  predicate SevenToFifteenDigits(t: string) {
    7 <= |t| <= 15 && AllDigits(t)
  }

  /**
   * `re.match(r'^\+?\d{7,15}$', phone)`: the greedy `\+?` takes a leading
   * plus, and on failure the matcher retries without it.
   */
  predicate PhonePattern(s: string) {
    (|s| > 0 && s[0] == '+' && SevenToFifteenDigits(s[1..])) || SevenToFifteenDigits(s)
  }

  /** `clean_default_phone_number`: an empty phone passes; any other must match the pattern. */
  function CleanPhone(phone: string): Result<string, string> {
    if phone != "" && !PhonePattern(phone) then Err(PhoneError) else Ok(phone)
  }

  /** The phone number as digits after an optional leading plus. */
  function PhoneDigits(s: string): string {
    if |s| > 0 && s[0] == '+' then s[1..] else s
  }

  /**
   * A phone number is accepted exactly when it is empty, or when after an
   * optional leading `+` it is 7 to 15 digits; an accepted number comes back
   * unchanged, a rejected one raises the phone error.
   */
  lemma CleanPhoneSpec(phone: string)
    ensures CleanPhone(phone).Ok? <==>
      phone == "" || (7 <= |PhoneDigits(phone)| <= 15 && forall c <- PhoneDigits(phone) :: IsDigit(c))
    ensures CleanPhone(phone).Ok? ==> CleanPhone(phone).value == phone
    ensures CleanPhone(phone).Err? ==> CleanPhone(phone).error == PhoneError
  {
    if |phone| > 0 && phone[0] == '+' {
      assert !IsDigit(phone[0]);
      assert phone[0] in phone;
    }
  }

  /** An accepted non-empty phone holds no letter and no symbol other than a leading plus. */
  lemma AcceptedPhoneChars(phone: string, i: nat)
    requires CleanPhone(phone).Ok? && i < |phone|
    ensures IsDigit(phone[i]) || (i == 0 && phone[i] == '+')
  {
    CleanPhoneSpec(phone);
    if phone[0] == '+' && i > 0 {
      assert phone[i] == PhoneDigits(phone)[i - 1];
      assert phone[i] in PhoneDigits(phone);
    } else if phone[0] != '+' {
      assert phone[i] in PhoneDigits(phone);
    }
  }

  /** `[A-Za-z0-9\s-]` */
  predicate IsPostcodeChar(c: char) {
    IsLetter(c) || IsDigit(c) || IsSpace(c) || c == '-'
  }

  /** `clean_default_postcode`: an empty postcode passes; any other must be 3 to 10 allowed characters. */
  function CleanPostcode(postcode: string): Result<string, string> {
    if postcode != "" && !(3 <= |postcode| <= 10 && forall c <- postcode :: IsPostcodeChar(c)) then Err(PostcodeError)
    else Ok(postcode)
  }

  /**
   * A postcode is rejected exactly when it is non-empty and either too short,
   * too long, or holds a character that is not a letter, digit, whitespace
   * or `-`; an accepted postcode comes back unchanged.
   */
  lemma CleanPostcodeSpec(postcode: string)
    ensures CleanPostcode(postcode).Err? <==>
      postcode != "" && (|postcode| < 3 || |postcode| > 10 || exists i :: 0 <= i < |postcode| && !IsPostcodeChar(postcode[i]))
    ensures CleanPostcode(postcode).Ok? ==> CleanPostcode(postcode).value == postcode
  {
    if exists i :: 0 <= i < |postcode| && !IsPostcodeChar(postcode[i]) {
      var i :| 0 <= i < |postcode| && !IsPostcodeChar(postcode[i]);
      assert postcode[i] in postcode;
    }
  }

  /** Examples: an Irish Eircode and a UK postcode pass; a symbol or a two-character code does not. */
  lemma PostcodeExamples()
    ensures CleanPostcode("D02 X285") == Ok("D02 X285")
    ensures CleanPostcode("SW1A 1AA") == Ok("SW1A 1AA")
    ensures CleanPostcode("D02#X285").Err?
    ensures CleanPostcode("AB").Err?
  {
    assert !IsPostcodeChar("D02#X285"[3]);
  }

  /** Examples: an international number and a national one pass. */
  lemma PhoneAcceptedExamples()
    ensures CleanPhone("+353871234567") == Ok("+353871234567")
    ensures CleanPhone("0871234567") == Ok("0871234567")
  {
  }

  /** Examples: too few digits, or letters, do not pass. */
  lemma PhoneRejectedExamples()
    ensures CleanPhone("12345").Err?
    ensures CleanPhone("call me now").Err?
  {
    assert !IsDigit("call me now"[0]);
    assert "call me now"[1..][0] == 'a';
    assert !AllDigits("call me now"[1..]) by {
      assert "call me now"[1..][0] in "call me now"[1..];
    }
  }

  // ---------------------------------------------------------------------------
  // Decorating the fields
  // ---------------------------------------------------------------------------

  /** `field.label or field_name.replace('_', ' ').title()` */
  function FallbackPlaceholder(name: string, f: Field): string {
    if HasLabelText(f.caption) then f.caption.text else Title(ReplaceChar(name, '_', ' '))
  }

  /** The placeholder of a field other than the country: the known text or the fallback, with ` *` when required. */
  function PlaceholderFor(name: string, f: Field): string {
    var base := match KnownPlaceholder(name)
      case Some(text) => text
      case None => FallbackPlaceholder(name, f);
    if f.required then base + " *" else base
  }

  /**
   * A required field's placeholder ends with ` *`, an optional one's does
   * not add it; a known name's placeholder starts with its known text; an
   * unknown name's is its label, else its title-cased name.
   */
  lemma PlaceholderForSpec(name: string, f: Field)
    ensures var p := PlaceholderFor(name, f);
      var base := KnownPlaceholder(name).GetOr(FallbackPlaceholder(name, f));
      && (f.required ==> p == base + " *" && p[|p| - 2..] == " *")
      && (!f.required ==> p == base)
      && (KnownPlaceholder(name).Some? ==> StartsWith(p, KnownPlaceholder(name).value))
  {
  }

  /** What the loop does to one field: placeholder (unless country), class, label off. */
  function DecorateField(name: string, f: Field): Field {
    var f1 := if name != CountryField then SetAttr(f, "placeholder", AText(PlaceholderFor(name, f))) else f;
    SetAttr(f1, "class", AText(InputClass)).(caption := LabelOff)
  }

  /** The field that gets autofocus: the phone field, else a first field with a non-empty name. */
  function AutofocusTarget(fs: Fields): Option<string> {
    if PhoneField in PyDict.Keys(fs) then Some(PhoneField)
    else if fs != [] && fs[0].0 != "" then Some(fs[0].0)
    else None
  }

  /** The position of the autofocus target among the fields. */
  function AutofocusIndex(fs: Fields): (r: Option<nat>)
    ensures r.Some? ==> r.value < |fs|
  {
    if PhoneField in PyDict.Keys(fs) then PyDict.IndexOfKey(fs, PhoneField)
    else if fs != [] && fs[0].0 != "" then Some(0)
    else None
  }

  /** `self.fields[target].widget.attrs['autofocus'] = True` */
  function Autofocus(fs: Fields): Fields {
    match AutofocusIndex(fs)
    case None => fs
    case Some(j) => fs[j := (fs[j].0, SetAttr(fs[j].1, "autofocus", ATrue))]
  }

  /** The fields after the constructor: autofocus, then every field decorated in order. */
  function Decorated(fs: Fields): (r: Fields)
  {
    var a := Autofocus(fs);
    seq(|a|, i requires 0 <= i < |a| => (a[i].0, DecorateField(a[i].0, a[i].1)))
  }

  /**
   * `UserProfileForm`. The fields Django builds from the model come in as
   * the constructor's argument.
   */
  class UserProfileForm {
    var fields: Fields

    /** `__init__`: autofocus, then the placeholder/class/label loop over `self.fields.items()`. */
    constructor(initial: Fields)
      requires PyDict.Valid(initial)
      ensures fields == Decorated(initial)
    {
      var fs := Autofocus(initial);
      fs := DecorateAll(fs);
      fields := fs;
    }
  }

  /** The placeholder/class/label loop over `self.fields.items()`, field by field in order. */
  method DecorateAll(a: Fields) returns (fs: Fields)
    ensures fs == seq(|a|, i requires 0 <= i < |a| => (a[i].0, DecorateField(a[i].0, a[i].1)))
  {
    fs := a;
    for i := 0 to |fs|
      invariant |fs| == |a|
      invariant forall j :: 0 <= j < i ==> fs[j] == (a[j].0, DecorateField(a[j].0, a[j].1))
      invariant forall j :: i <= j < |fs| ==> fs[j] == a[j]
    {
      var name := fs[i].0;
      var field := fs[i].1;
      if name != CountryField {
        var placeholder := PlaceholderFor(name, field);
        field := SetAttr(field, "placeholder", AText(placeholder));
      }
      field := SetAttr(field, "class", AText(InputClass));
      field := field.(caption := LabelOff);
      fs := fs[i := (name, field)];
    }
  }

  /** In a valid dict the autofocus position holds the target name, and no other position does. */
  lemma AutofocusIndexSpec(fs: Fields, i: nat)
    requires PyDict.Valid(fs) && i < |fs|
    ensures AutofocusIndex(fs) == Some(i) <==> AutofocusTarget(fs) == Some(fs[i].0)
  {
    if PhoneField in PyDict.Keys(fs) {
      var j := PyDict.IndexOfKey(fs, PhoneField).value;
      assert fs[i].0 == PhoneField ==> i == j;
    }
  }

  /** Autofocus only adds the `autofocus` attribute to its target: names, labels, flags and other attributes stay. */
  lemma AutofocusSpec(fs: Fields)
    requires PyDict.Valid(fs)
    ensures var a := Autofocus(fs);
      && |a| == |fs|
      && forall i :: 0 <= i < |fs| ==>
        && a[i].0 == fs[i].0
        && a[i].1.caption == fs[i].1.caption && a[i].1.required == fs[i].1.required && a[i].1.kind == fs[i].1.kind
        && (forall k :: k != "autofocus" ==> GetAttr(a[i].1, k) == GetAttr(fs[i].1, k))
        && GetAttr(a[i].1, "autofocus")
           == if AutofocusTarget(fs) == Some(fs[i].0) then Some(ATrue) else GetAttr(fs[i].1, "autofocus")
  {
    forall i | 0 <= i < |fs|
      ensures var a := Autofocus(fs);
        && a[i].0 == fs[i].0
        && a[i].1.caption == fs[i].1.caption && a[i].1.required == fs[i].1.required && a[i].1.kind == fs[i].1.kind
        && (forall k :: k != "autofocus" ==> GetAttr(a[i].1, k) == GetAttr(fs[i].1, k))
        && GetAttr(a[i].1, "autofocus")
           == if AutofocusTarget(fs) == Some(fs[i].0) then Some(ATrue) else GetAttr(fs[i].1, "autofocus")
    {
      AutofocusAt(fs, i);
    }
  }

  /** Field `i` after autofocus, as `AutofocusSpec` states it. */
  lemma AutofocusAt(fs: Fields, i: nat)
    requires PyDict.Valid(fs) && i < |fs|
    ensures var a := Autofocus(fs);
      && |a| == |fs|
      && a[i].0 == fs[i].0
      && a[i].1.caption == fs[i].1.caption && a[i].1.required == fs[i].1.required && a[i].1.kind == fs[i].1.kind
      && (forall k :: k != "autofocus" ==> GetAttr(a[i].1, k) == GetAttr(fs[i].1, k))
      && GetAttr(a[i].1, "autofocus")
         == if AutofocusTarget(fs) == Some(fs[i].0) then Some(ATrue) else GetAttr(fs[i].1, "autofocus")
  {
    AutofocusIndexSpec(fs, i);
    match AutofocusIndex(fs)
    case None =>
    case Some(j) =>
      SetAttrSpec(fs[j].1, "autofocus", ATrue);
  }

  /**
   * One field after the loop: no label, the class, its flag and widget, the
   * placeholder for its name unless it is the country field, which keeps
   * the placeholder it had; `autofocus` is untouched.
   */
  lemma DecorateFieldSpec(name: string, f: Field)
    ensures var r := DecorateField(name, f);
      && r.caption == LabelOff && r.required == f.required && r.kind == f.kind
      && GetAttr(r, "class") == Some(AText(InputClass))
      && GetAttr(r, "placeholder")
         == (if name != CountryField then Some(AText(PlaceholderFor(name, f))) else GetAttr(f, "placeholder"))
      && GetAttr(r, "autofocus") == GetAttr(f, "autofocus")
  {
    var f1 := if name != CountryField then SetAttr(f, "placeholder", AText(PlaceholderFor(name, f))) else f;
    SetAttrSpec(f, "placeholder", AText(PlaceholderFor(name, f)));
    SetAttrSpec(f1, "class", AText(InputClass));
    var s := SetAttr(f1, "class", AText(InputClass));
    assert DecorateField(name, f).attrs == s.attrs;
    assert GetAttr(DecorateField(name, f), "class") == GetAttr(s, "class");
    assert GetAttr(DecorateField(name, f), "placeholder") == GetAttr(s, "placeholder");
    assert GetAttr(DecorateField(name, f), "autofocus") == GetAttr(s, "autofocus");
  }

  /**
   * After the constructor: names keep their order; every field has the
   * class, no label and its `required` flag; every field but the country has
   * the placeholder for its name, label and flag, and the country keeps the
   * placeholder it had; only the autofocus target has `autofocus` added.
   */
  lemma DecoratedSpec(fs: Fields)
    requires PyDict.Valid(fs)
    ensures var r := Decorated(fs);
      && |r| == |fs|
      && forall i :: 0 <= i < |fs| ==>
        && r[i].0 == fs[i].0
        && r[i].1.caption == LabelOff
        && r[i].1.required == fs[i].1.required
        && r[i].1.kind == fs[i].1.kind
        && GetAttr(r[i].1, "class") == Some(AText(InputClass))
        && GetAttr(r[i].1, "placeholder")
           == (if fs[i].0 != CountryField then Some(AText(PlaceholderFor(fs[i].0, fs[i].1)))
               else GetAttr(fs[i].1, "placeholder"))
        && GetAttr(r[i].1, "autofocus")
           == if AutofocusTarget(fs) == Some(fs[i].0) then Some(ATrue) else GetAttr(fs[i].1, "autofocus")
  {
    forall i | 0 <= i < |fs|
      ensures var r := Decorated(fs);
        && r[i].0 == fs[i].0
        && r[i].1.caption == LabelOff
        && r[i].1.required == fs[i].1.required
        && r[i].1.kind == fs[i].1.kind
        && GetAttr(r[i].1, "class") == Some(AText(InputClass))
        && GetAttr(r[i].1, "placeholder")
           == (if fs[i].0 != CountryField then Some(AText(PlaceholderFor(fs[i].0, fs[i].1)))
               else GetAttr(fs[i].1, "placeholder"))
        && GetAttr(r[i].1, "autofocus")
           == if AutofocusTarget(fs) == Some(fs[i].0) then Some(ATrue) else GetAttr(fs[i].1, "autofocus")
    {
      DecoratedAt(fs, i);
    }
  }

  /** Field `i` after the constructor, as `DecoratedSpec` states it. */
  lemma DecoratedAt(fs: Fields, i: nat)
    requires PyDict.Valid(fs) && i < |fs|
    ensures var r := Decorated(fs);
      && |r| == |fs|
      && r[i].0 == fs[i].0
      && r[i].1.caption == LabelOff
      && r[i].1.required == fs[i].1.required
      && r[i].1.kind == fs[i].1.kind
      && GetAttr(r[i].1, "class") == Some(AText(InputClass))
      && GetAttr(r[i].1, "placeholder")
         == (if fs[i].0 != CountryField then Some(AText(PlaceholderFor(fs[i].0, fs[i].1)))
             else GetAttr(fs[i].1, "placeholder"))
      && GetAttr(r[i].1, "autofocus")
         == if AutofocusTarget(fs) == Some(fs[i].0) then Some(ATrue) else GetAttr(fs[i].1, "autofocus")
  {
    AutofocusAt(fs, i);
    var a := Autofocus(fs);
    assert Decorated(fs)[i] == (a[i].0, DecorateField(a[i].0, a[i].1));
    DecorateFocused(fs[i].0, a[i].1, fs[i].1);
  }

  /** Decorating a field that differs from `g` at most in `autofocus` decorates it as `g` would be, autofocus aside. */
  lemma DecorateFocused(name: string, f: Field, g: Field)
    requires f.caption == g.caption && f.required == g.required && f.kind == g.kind
    requires GetAttr(f, "placeholder") == GetAttr(g, "placeholder")
    ensures var r := DecorateField(name, f);
      && r.caption == LabelOff && r.required == g.required && r.kind == g.kind
      && GetAttr(r, "class") == Some(AText(InputClass))
      && GetAttr(r, "placeholder")
         == (if name != CountryField then Some(AText(PlaceholderFor(name, g))) else GetAttr(g, "placeholder"))
      && GetAttr(r, "autofocus") == GetAttr(f, "autofocus")
  {
    DecorateFieldSpec(name, f);
    PlaceholderForAgrees(name, f, g);
  }

  /** The placeholder depends only on the name, the label and the `required` flag. */
  lemma PlaceholderForAgrees(name: string, f: Field, g: Field)
    requires f.caption == g.caption && f.required == g.required
    ensures PlaceholderFor(name, f) == PlaceholderFor(name, g)
  {
    assert FallbackPlaceholder(name, f) == FallbackPlaceholder(name, g);
  }

  /** A known name takes its known text, with ` *` when the field is required. */
  lemma KnownPlaceholderExample(f: Field)
    ensures PlaceholderFor("default_postcode", f) == if f.required then "Postal Code *" else "Postal Code"
  {
  }

  /**
   * An unknown name falls back to the field's label; without a label, to the
   * name with underscores turned into spaces and its first letter upper-cased.
   */
  lemma FallbackSpec(name: string, f: Field)
    requires KnownPlaceholder(name).None? && !f.required
    ensures HasLabelText(f.caption) ==> PlaceholderFor(name, f) == f.caption.text
    ensures !HasLabelText(f.caption) ==>
      var p := PlaceholderFor(name, f);
      && |p| == |name|
      && (forall i :: 0 <= i < |name| ==> p[i] != '_')
      && (forall i :: 0 <= i < |name| && name[i] == '_' ==> p[i] == ' ')
      && (|name| > 0 && IsLetter(name[0]) ==> IsUpper(p[0]))
  {
    var s := ReplaceChar(name, '_', ' ');
    forall i | 0 <= i < |name| ensures Title(s)[i] != '_' {
      if IsLetter(s[i]) {
        assert IsLetter(Title(s)[i]);
      }
    }
  }
}
