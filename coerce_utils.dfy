/**
 * Coercion as utils.js defines it, over the flat descriptors of types.js:
 * `coerce` destructures `[type, subtype]` and dispatches on the head tag.
 */
module UtilsCoercion {
  import opened Wrappers
  import opened Values
  import opened Text
  import opened NumberParsing
  import opened Types
  import IndexCoercion

  /** `type[0]`, or `undefined`. */
  function Head(t: Descriptor): Option<string>
  {
    if |t| >= 1 then Some(t[0]) else None
  }

  /** `type[1]`, or `undefined`. */
  function Subtype(t: Descriptor): Option<string>
  {
    if |t| >= 2 then Some(t[1]) else None
  }

  /**
   * The one-tag descriptor `[subtype]`. For an undefined subtype the list
   * `[undefined]` is modelled as the empty list: both have head `undefined`,
   * which is all that coercion looks at.
   */
  function OneTag(subtype: Option<string>): (t: Descriptor)
    ensures |t| <= 1 && Head(t) == subtype
  {
    if subtype.Some? then [subtype.value] else []
  }

  /** `toString(value)`: `String(value)` of a string is that string. */
  function ToString(raw: string): Value
  {
    Str(raw)
  }

  /** `toInt(value)`. */
  function ToInt(raw: string): Result<Value, Error>
  {
    var n := ParseInt(raw);
    if n.None? then Err(InvalidInteger(raw)) else Ok(Integer(n.value))
  }

  /** `toFloat(value)`: only the not-a-number test is interpreted. */
  function ToFloat(raw: string): Result<Value, Error>
  {
    if ParseFloatIsNaN(raw) then Err(InvalidFloat(raw)) else Ok(Floating(raw))
  }

  /** `toBool(value)`: membership in `["yes", "true", "1", true]`. */
  function ToBool(raw: string): Value
  {
    Bool(raw == "yes" || raw == "true" || raw == "1")
  }

  /** `coerce(type, value)` of utils.js. */
  function Coerce(t: Descriptor, raw: string): (r: Result<Value, Error>)
    ensures r.Err? ==> CoercionError(r.error)
    ensures r.Ok? && Head(t) == Some("array") ==> r.value.List?
    decreases |t|, 1, 0
  {
    if Head(t) == Some("array") then ToArray(raw, Subtype(t))
    else if Head(t) == Some("int") then ToInt(raw)
    else if Head(t) == Some("float") then ToFloat(raw)
    else if Head(t) == Some("bool") then Ok(ToBool(raw))
    else Ok(ToString(raw))
  }

  /** `toArray(value, subtype)`: split on a comma and any spaces, coerce each piece with `[subtype]`. */
  function ToArray(raw: string, subtype: Option<string>): (r: Result<Value, Error>)
    ensures r.Err? ==> CoercionError(r.error)
    ensures r.Ok? ==> r.value.List?
    decreases |OneTag(subtype)|, 2, 0
  {
    var r := CoerceEach(OneTag(subtype), SplitItems(raw));
    if r.Ok? then Ok(List(r.value)) else Err(r.error)
  }

  /** `pieces.map(v => coerce(t, v))`, ended by the first piece that throws. */
  function CoerceEach(t: Descriptor, pieces: seq<string>): (r: Result<seq<Value>, Error>)
    ensures r.Err? ==> CoercionError(r.error)
    decreases |t|, 1, |pieces|
  {
    if pieces == [] then Ok([])
    else
      var head := Coerce(t, pieces[0]);
      if head.Err? then Err(head.error)
      else
        var tail := CoerceEach(t, pieces[1..]);
        if tail.Err? then tail else Ok([head.value] + tail.value)
  }

  /** The tags after the second never matter: only `[type, subtype]` is read. */
  lemma OnlyTwoTagsRead(t: Descriptor, raw: string)
    requires |t| >= 2
    ensures Coerce(t, raw) == Coerce(t[..2], raw)
  {
  }

  /** Any head other than the four known tags, and a missing head, yield the raw string. */
  lemma UnknownHeadIsString(t: Descriptor, raw: string)
    requires Head(t) !in {Some("array"), Some("int"), Some("float"), Some("bool")}
    ensures Coerce(t, raw) == Ok(Str(raw))
  {
  }

  /** `toInt` throws exactly when parseInt yields NaN, and reads back every integer's text. */
  lemma ToIntSpec(raw: string, i: int)
    ensures ToInt(raw).Err? <==> ParseInt(raw).None?
    ensures ToInt(raw).Err? ==> ToInt(raw).error == InvalidInteger(raw)
    ensures ToInt(IntText(i)) == Ok(Integer(i))
  {
    ParseIntOfText(i, "");
    assert IntText(i) + "" == IntText(i);
  }

  /** `toBool` is true exactly for "yes", "true" and "1". */
  lemma ToBoolSpec(raw: string)
    ensures ToBool(raw).b <==> raw in {"yes", "true", "1"}
  {
  }

  lemma {:induction false} CoerceEachAgrees(tag: string, pieces: seq<string>)
    requires tag != "array"
    ensures CoerceEach([tag], pieces) == IndexCoercion.CoerceEach(IndexCoercion.Tag(tag), pieces)
    decreases |pieces|
  {
    if pieces != [] {
      CoerceEachAgrees(tag, pieces[1..]);
    }
  }

  /**
   * utils.js and index.js coerce alike for every descriptor both can write:
   * a scalar tag, and an array of a scalar tag.
   */
  lemma AgreesWithIndex(tag: string, raw: string)
    requires tag != "array"
    ensures Coerce([tag], raw) == IndexCoercion.Coerce(IndexCoercion.Tag(tag), raw)
    ensures Coerce(ArrayOf([tag]), raw) ==
            IndexCoercion.Coerce(IndexCoercion.ArrayType(IndexCoercion.Tag(tag)), raw)
  {
    CoerceEachAgrees(tag, SplitItems(raw));
    IndexCoercion.CoerceArrayUnfold(IndexCoercion.Tag(tag), raw);
  }

  lemma {:induction false} CoerceEachNested(pieces: seq<string>)
    requires forall i :: 0 <= i < |pieces| ==> ',' !in pieces[i]
    ensures var r := CoerceEach(["array"], pieces);
      r.Ok? && |r.value| == |pieces| &&
      forall i :: 0 <= i < |pieces| ==> r.value[i] == List([Str(pieces[i])])
    decreases |pieces|
  {
    if pieces != [] {
      CoerceEachNested(pieces[1..]);
      InnerArrayOfPiece(pieces[0]);
      var r := CoerceEach(["array"], pieces);
      var tail := CoerceEach(["array"], pieces[1..]);
      assert r.Ok? && r.value == [List([Str(pieces[0])])] + tail.value;
      assert forall i :: 1 <= i < |pieces| ==> pieces[i] == pieces[1..][i - 1];
    }
  }

  /** `coerce(["array"], piece)` of a piece without commas: subtype undefined, one string element. */
  lemma InnerArrayOfPiece(p: string)
    requires ',' !in p
    ensures Coerce(["array"], p) == Ok(List([Str(p)]))
  {
    SplitItemsNoComma(p);
    var each := CoerceEach([], [p]);
    assert CoerceEach([], [p][1..]) == Ok([]);
    assert Coerce([], p) == Ok(Str(p));
    assert each.Ok? && each.value == [Str(p)];
    assert Coerce(["array"], p) == ToArray(p, None);
  }

  /**
   * A flattened nested descriptor keeps only its second tag: with
   * `array(array(int))` every piece becomes a one-element array holding the
   * piece as a string, and the "int" tag is never consulted.
   */
  lemma NestedArrayYieldsStrings(raw: string)
    ensures var r := Coerce(ArrayOf(ArrayOf(Int)), raw);
      var pieces := SplitItems(raw);
      r.Ok? && r.value.List? && |r.value.items| == |pieces| &&
      forall i :: 0 <= i < |pieces| ==> r.value.items[i] == List([Str(pieces[i])])
  {
    CoerceEachNested(SplitItems(raw));
  }
}
