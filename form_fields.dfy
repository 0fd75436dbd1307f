/**
 * Django form fields as the storefront's forms touch them: each field has a
 * label, a `required` flag and a widget whose HTML attributes live in an
 * insertion-ordered dict. A form's `fields` is an insertion-ordered dict from
 * field name to field.
 */
module FormFields {
  import opened Wrappers
  import opened Text
  import PyDict

  /** A widget attribute value: text, or Python's `True` (`autofocus`). */
  datatype Attr = AText(text: string) | ATrue

  /** `field.label` (`caption` here): a text, unset (`None`), or switched off (`False`). */
  datatype Label = LabelText(text: string) | NoLabel | LabelOff

  datatype WidgetKind = TextInput | EmailInput | NumberInput | Select | Textarea | FileInput | CheckboxInput

  datatype Field = Field(caption: Label, required: bool, kind: WidgetKind, attrs: PyDict.Dict<string, Attr>)

  type Fields = PyDict.Dict<string, Field>

  /** `field.label` is truthy: a non-empty text. */
  predicate HasLabelText(l: Label) {
    l.LabelText? && l.text != ""
  }

  /** `field.widget.attrs.get(key)` */
  function GetAttr(f: Field, key: string): Option<Attr> {
    PyDict.Get(f.attrs, key)
  }

  /** `field.widget.attrs[key] = v` */
  function SetAttr(f: Field, key: string, v: Attr): Field {
    f.(attrs := PyDict.Set(f.attrs, key, v))
  }

  /** After `attrs[key] = v`, the key holds `v` and every other key what it held; label, flag and widget stay. */
  lemma SetAttrSpec(f: Field, key: string, v: Attr)
    ensures var r := SetAttr(f, key, v);
      && r.caption == f.caption && r.required == f.required && r.kind == f.kind
      && forall k :: GetAttr(r, k) == if k == key then Some(v) else GetAttr(f, k)
  {
    forall k ensures GetAttr(SetAttr(f, key, v), k) == if k == key then Some(v) else GetAttr(f, k) {
      PyDict.SetGet(f.attrs, key, v, k);
    }
  }

  /** `field.widget.attrs.setdefault(key, v)` */
  function SetDefaultAttr(f: Field, key: string, v: Attr): Field {
    if GetAttr(f, key).Some? then f else SetAttr(f, key, v)
  }

  /** `setdefault` sets the key only when it is absent and leaves every other key alone. */
  lemma SetDefaultAttrSpec(f: Field, key: string, v: Attr)
    ensures var r := SetDefaultAttr(f, key, v);
      && r.caption == f.caption && r.required == f.required && r.kind == f.kind
      && GetAttr(r, key) == (if GetAttr(f, key).Some? then GetAttr(f, key) else Some(v))
      && forall k :: k != key ==> GetAttr(r, k) == GetAttr(f, k)
  {
    SetAttrSpec(f, key, v);
  }

  /** `self.fields[name]` */
  function FieldOf(fs: Fields, name: string): Option<Field> {
    PyDict.Get(fs, name)
  }

  /** `self.fields[name] = f` on a present name. */
  function UpdateField(fs: Fields, name: string, f: Field): (r: Fields)
    requires name in PyDict.Keys(fs)
    ensures PyDict.Keys(r) == PyDict.Keys(fs)
  {
    PyDict.Set(fs, name, f)
  }

  /** After the update, `name` holds `f` and every other name what it held. */
  lemma UpdateFieldGet(fs: Fields, name: string, f: Field, n: string)
    requires name in PyDict.Keys(fs)
    ensures FieldOf(UpdateField(fs, name, f), n) == if n == name then Some(f) else FieldOf(fs, n)
  {
    PyDict.SetGet(fs, name, f, n);
  }
}
