/**
 * The bag's line keys: `str(product_id)`, or `f"{product_id}_{option_id}"`
 * for a product bought through one of its options. The bag views encode
 * (bag/views.py); the checkout pricing loop decodes (checkout/views.py).
 */
module BagKey {
  import opened Wrappers
  import opened Text

  /** A decoded key: the product id and, when the key names one, the option id. */
  datatype LineKey = LineKey(productId: int, optionId: Option<int>)

  /** The key the bag views store under. */
  function Encode(productId: int, optionId: Option<int>): string {
    match optionId
    case None => IntToString(productId)
    case Some(o) => IntToString(productId) + "_" + IntToString(o)
  }

  /**
   * Decoding as the checkout loop does it: split on every `_`; the first piece
   * is the product id; an option id is read only when there are exactly two
   * pieces. A piece that `int()` rejects makes the whole key malformed (None).
   */
  function Decode(key: string): Option<LineKey> {
    var parts := Split(key, "_");
    match ParseInt(parts[0])
    case None => None
    case Some(pid) =>
      if |parts| == 2 then
        match ParseInt(parts[1])
        case None => None
        case Some(o) => Some(LineKey(pid, Some(o)))
      else Some(LineKey(pid, None))
  }

  /** Every key the bag views write decodes back to the ids it was made from. */
  lemma DecodeEncode(productId: int, optionId: Option<int>)
    ensures Decode(Encode(productId, optionId)) == Some(LineKey(productId, optionId))
  {
    var p := IntToString(productId);
    IntToStringNoUnderscore(productId);
    ParseIntOfIntToString(productId);
    match optionId
    case None =>
      SplitJoin([p], '_');
      assert Join([p], "_") == p;
    case Some(o) =>
      var q := IntToString(o);
      IntToStringNoUnderscore(o);
      ParseIntOfIntToString(o);
      SplitJoin([p, q], '_');
      assert Join([p, q], "_") == p + "_" + q by {
        assert [p, q][1..] == [q];
      }
  }

  /**
   * A key with three or more pieces keeps its product and loses its option:
   * `"5_3_7"` decodes to product 5 with no option.
   */
  lemma DecodeDropsOptionOfLongKey(productId: int, a: int, b: int)
    ensures Decode(Encode(productId, Some(a)) + "_" + IntToString(b)) == Some(LineKey(productId, None))
  {
    var p, q, r := IntToString(productId), IntToString(a), IntToString(b);
    var key := Encode(productId, Some(a)) + "_" + r;
    IntToStringNoUnderscore(productId);
    IntToStringNoUnderscore(a);
    IntToStringNoUnderscore(b);
    ParseIntOfIntToString(productId);
    assert Join([p, q, r], "_") == key by {
      assert [q, r][1..] == [r];
      assert [p, q, r][1..] == [q, r];
      assert Join([q, r], "_") == q + "_" + r;
      assert Join([p, q, r], "_") == p + "_" + (q + "_" + r);
    }
    SplitJoin([p, q, r], '_');
    var parts := Split(key, "_");
    assert parts == [p, q, r];
    assert ParseInt(parts[0]) == Some(productId) && |parts| != 2;
  }
}
