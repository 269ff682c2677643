/**
 * Type descriptors and coercion as index.js defines them: a descriptor is the
 * string "string", "float", "bool" or "int", or an array whose second element
 * is the element descriptor (`array(type = "string")` builds `["array", type]`).
 */
module IndexCoercion {
  import opened Wrappers
  import opened Values
  import opened Text
  import opened NumberParsing

  /** A JavaScript value passed as a descriptor: a string, `undefined`, or an array. */
  datatype IndexType = Tag(name: string) | Missing | Array(items: seq<IndexType>)

  const StringType: IndexType := Tag("string")
  const FloatType: IndexType := Tag("float")
  const BoolType: IndexType := Tag("bool")
  const IntType: IndexType := Tag("int")

  /** `array(elem)`: the two-element list `["array", elem]`. */
  function ArrayType(elem: IndexType): (t: IndexType)
    ensures t.Array? && ElementType(t.items) == elem
  {
    Array([Tag("array"), elem])
  }

  /** `array()`: the element type defaults to "string". */
  const ArrayOfStrings: IndexType := ArrayType(StringType)

  /** `type[1]`, or `undefined` when the list has no second element. */
  function ElementType(items: seq<IndexType>): IndexType
  {
    if |items| >= 2 then items[1] else Missing
  }

  /** Nesting depth of array descriptors, through the second element only. */
  function Depth(t: IndexType): nat
  {
    match t
    case Array(items) => 1 + (if |items| >= 2 then Depth(items[1]) else 0)
    case _ => 0
  }

  /** Membership in `["yes", "true", "1", true]` for a raw string. */
  predicate IsTruthy(raw: string)
  {
    raw == "yes" || raw == "true" || raw == "1"
  }

  /** `coerce(type, value)` of index.js. */
  function Coerce(t: IndexType, raw: string): (r: Result<Value, Error>)
    ensures r.Err? ==> CoercionError(r.error)
    decreases Depth(t), 0
  {
    match t
    case Array(items) =>
      var r := CoerceEach(ElementType(items), SplitItems(raw));
      if r.Ok? then Ok(List(r.value)) else Err(r.error)
    case _ =>
      if t == IntType then
        match ParseInt(raw)
        case None => Err(InvalidInteger(raw))
        case Some(n) => Ok(Integer(n))
      else if t == FloatType then
        if ParseFloatIsNaN(raw) then Err(InvalidFloat(raw)) else Ok(Floating(raw))
      else if t == BoolType then
        Ok(Bool(IsTruthy(raw)))
      else
        Ok(Str(raw))
  }

  /** `pieces.map(v => coerce(elem, v))`: the first piece that throws ends the map. */
  function CoerceEach(elem: IndexType, pieces: seq<string>): (r: Result<seq<Value>, Error>)
    ensures r.Err? ==> CoercionError(r.error)
    decreases Depth(elem), |pieces|
  {
    if pieces == [] then Ok([])
    else
      var head := Coerce(elem, pieces[0]);
      if head.Err? then Err(head.error)
      else
        var tail := CoerceEach(elem, pieces[1..]);
        if tail.Err? then tail else Ok([head.value] + tail.value)
  }

  /**
   * Mapping coercion over the pieces succeeds exactly when every piece
   * coerces, keeps their order and count, and otherwise fails with the error
   * of the first piece that does not coerce.
   */
  lemma CoerceEachSpec(elem: IndexType, pieces: seq<string>)
    ensures var r := CoerceEach(elem, pieces);
      && (r.Ok? <==> forall i :: 0 <= i < |pieces| ==> Coerce(elem, pieces[i]).Ok?)
      && (r.Ok? ==> |r.value| == |pieces| &&
                    forall i :: 0 <= i < |pieces| ==> r.value[i] == Coerce(elem, pieces[i]).value)
      && (r.Err? ==> (exists i :: 0 <= i < |pieces| && Coerce(elem, pieces[i]) == Err(r.error) &&
                                  forall j :: 0 <= j < i ==> Coerce(elem, pieces[j]).Ok?))
  {
    CoerceEachValues(elem, pieces);
    CoerceEachFirstError(elem, pieces);
  }

  lemma {:induction false} CoerceEachValues(elem: IndexType, pieces: seq<string>)
    ensures var r := CoerceEach(elem, pieces);
      && (r.Ok? <==> forall i :: 0 <= i < |pieces| ==> Coerce(elem, pieces[i]).Ok?)
      && (r.Ok? ==> |r.value| == |pieces| &&
                    forall i :: 0 <= i < |pieces| ==> r.value[i] == Coerce(elem, pieces[i]).value)
    decreases |pieces|
  {
    if pieces != [] {
      CoerceEachValues(elem, pieces[1..]);
      assert forall i :: 1 <= i < |pieces| ==> pieces[i] == pieces[1..][i - 1];
      var r := CoerceEach(elem, pieces);
      if !r.Ok? && Coerce(elem, pieces[0]).Ok? {
        assert !(forall i :: 0 <= i < |pieces[1..]| ==> Coerce(elem, pieces[1..][i]).Ok?);
      }
    }
  }

  lemma {:induction false} CoerceEachFirstError(elem: IndexType, pieces: seq<string>)
    ensures var r := CoerceEach(elem, pieces);
      r.Err? ==> (exists i :: 0 <= i < |pieces| && Coerce(elem, pieces[i]) == Err(r.error) &&
                              forall j :: 0 <= j < i ==> Coerce(elem, pieces[j]).Ok?)
    decreases |pieces|
  {
    var r := CoerceEach(elem, pieces);
    if pieces != [] && r.Err? {
      if Coerce(elem, pieces[0]).Err? {
        assert Coerce(elem, pieces[0]) == Err(r.error);
      } else {
        CoerceEachFirstError(elem, pieces[1..]);
        var tail := CoerceEach(elem, pieces[1..]);
        assert tail == r;
        var k :| 0 <= k < |pieces| - 1 && Coerce(elem, pieces[1..][k]) == Err(tail.error) &&
                 forall j :: 0 <= j < k ==> Coerce(elem, pieces[1..][j]).Ok?;
        assert Coerce(elem, pieces[k + 1]) == Err(r.error);
        forall j | 0 <= j < k + 1 ensures Coerce(elem, pieces[j]).Ok? {
          if j > 0 { assert pieces[j] == pieces[1..][j - 1]; }
        }
      }
    }
  }

  /**
   * Array coercion splits the raw value on a comma followed by any spaces and
   * coerces each piece with the element type: one element more than there are
   * commas, in order, or the first piece's error.
   */
  lemma CoerceArray(elem: IndexType, raw: string)
    ensures var r := Coerce(ArrayType(elem), raw);
      var pieces := SplitItems(raw);
      && (r.Ok? <==> forall i :: 0 <= i < |pieces| ==> Coerce(elem, pieces[i]).Ok?)
      && (r.Ok? ==> r.value.List? && |r.value.items| == Count(raw, ',') + 1 &&
                    forall i :: 0 <= i < |pieces| ==> r.value.items[i] == Coerce(elem, pieces[i]).value)
      && (r.Err? ==> exists i :: 0 <= i < |pieces| && Coerce(elem, pieces[i]) == Err(r.error))
  {
    var pieces := SplitItems(raw);
    CoerceArrayUnfold(elem, raw);
    CoerceEachSpec(elem, pieces);
  }

  lemma CoerceArrayUnfold(elem: IndexType, raw: string)
    ensures var each := CoerceEach(elem, SplitItems(raw));
      Coerce(ArrayType(elem), raw) == if each.Ok? then Ok(List(each.value)) else Err(each.error)
  {
  }

  /** An empty raw value is one empty piece, not an empty array. */
  lemma CoerceEmptyArray(elem: IndexType)
    ensures Coerce(ArrayType(elem), "") ==
      (var v := Coerce(elem, ""); if v.Ok? then Ok(List([v.value])) else Err(v.error))
  {
    assert SplitItems("") == [""];
    var v := Coerce(elem, "");
    var each := CoerceEach(elem, [""]);
    assert CoerceEach(elem, [""][1..]) == Ok([]);
    assert v.Err? ==> each == Err(v.error);
    assert v.Ok? ==> each.Ok? && each.value == [v.value];
  }

  /** "a, b, c" and "a,b,c" both coerce to ["a", "b", "c"] with the default element type. */
  lemma CoerceArrayExamples()
    ensures Coerce(ArrayOfStrings, "a, b, c") == Ok(List([Str("a"), Str("b"), Str("c")]))
    ensures Coerce(ArrayOfStrings, "a,b,c") == Ok(List([Str("a"), Str("b"), Str("c")]))
  {
    SplitSpaced();
    SplitTight();
    CoerceThreeStrings();
    CoerceArrayUnfold(StringType, "a, b, c");
    CoerceArrayUnfold(StringType, "a,b,c");
  }

  lemma CoerceThreeStrings()
    ensures CoerceEach(StringType, ["a", "b", "c"]) == Ok([Str("a"), Str("b"), Str("c")])
  {
    assert CoerceEach(StringType, []) == Ok([]);
    CoerceOneMore("c", []);
    assert ["c"] + [] == ["c"];
    CoerceOneMore("b", ["c"]);
    assert ["b"] + ["c"] == ["b", "c"];
    CoerceOneMore("a", ["b", "c"]);
    assert ["a"] + ["b", "c"] == ["a", "b", "c"];
    assert [Str("c")] + [] == [Str("c")];
    assert [Str("b")] + [Str("c")] == [Str("b"), Str("c")];
    assert [Str("a")] + [Str("b"), Str("c")] == [Str("a"), Str("b"), Str("c")];
  }

  /** One string piece in front of pieces that all coerce. */
  lemma CoerceOneMore(p: string, rest: seq<string>)
    requires CoerceEach(StringType, rest).Ok?
    ensures CoerceEach(StringType, [p] + rest) == Ok([Str(p)] + CoerceEach(StringType, rest).value)
  {
    CoerceString(p);
    assert ([p] + rest)[0] == p;
    assert ([p] + rest)[1..] == rest;
  }

  lemma CoerceString(raw: string)
    ensures Coerce(StringType, raw) == Ok(Str(raw))
  {
    assert |StringType.name| == 6;
    assert |IntType.name| == 3 && |FloatType.name| == 5 && |BoolType.name| == 4;
    CoerceIdentity(StringType, raw);
  }

  lemma SplitSpaced()
    ensures SplitItems("a, b, c") == ["a", "b", "c"]
  {
    JoinThree("a", "b", "c", [','] + Spaces(1));
    assert Spaces(1) == " ";
    assert [','] + Spaces(1) == ", ";
    assert "a" + ", " + "b" + ", " + "c" == "a, b, c";
    SplitItemsOfJoin(["a", "b", "c"], 1);
  }

  lemma SplitTight()
    ensures SplitItems("a,b,c") == ["a", "b", "c"]
  {
    JoinThree("a", "b", "c", [','] + Spaces(0));
    assert [','] + Spaces(0) == ",";
    assert "a" + "," + "b" + "," + "c" == "a,b,c";
    SplitItemsOfJoin(["a", "b", "c"], 0);
  }

  lemma JoinThree(a: string, b: string, c: string, sep: string)
    ensures Join([a, b, c], sep) == a + sep + b + sep + c
  {
    assert [a, b, c][1..] == [b, c];
    assert [b, c][1..] == [c];
    assert Join([b, c], sep) == b + sep + c;
    assert Join([a, b, c], sep) == a + sep + (b + sep + c);
  }

  /**
   * Integer coercion: `InvalidInteger(raw)` exactly when no digit follows the
   * leading white space and sign, otherwise the integer parseInt reads.
   */
  lemma CoerceInt(raw: string)
    ensures var r := Coerce(IntType, raw);
      var u := Unsigned(TrimStart(raw));
      && (r.Err? <==> u == [] || !IsDigit(u[0]))
      && (r.Err? ==> r.error == InvalidInteger(raw))
      && (r.Ok? ==> r.value == Integer(ParseInt(raw).value))
  {
    ParseIntNaNIff(raw);
  }

  /** Integer coercion reads back every integer's decimal text, whatever non-digit text follows. */
  lemma CoerceIntRoundTrip(i: int, rest: string)
    requires rest == [] || !IsDigit(rest[0])
    ensures Coerce(IntType, IntText(i) + rest) == Ok(Integer(i))
  {
    ParseIntOfText(i, rest);
  }

  /** Float coercion fails with `InvalidFloat(raw)` exactly when parseFloat yields NaN. */
  lemma CoerceFloat(raw: string)
    ensures Coerce(FloatType, raw).Err? <==> ParseFloatIsNaN(raw)
    ensures Coerce(FloatType, raw).Err? ==> Coerce(FloatType, raw).error == InvalidFloat(raw)
    ensures Coerce(FloatType, raw).Ok? ==> Coerce(FloatType, raw).value == Floating(raw)
  {
  }

  /** Bool coercion never fails, and is true exactly for "yes", "true" and "1". */
  lemma CoerceBool(raw: string)
    ensures Coerce(BoolType, raw) == Ok(Bool(raw in {"yes", "true", "1"}))
    ensures Coerce(BoolType, "no") == Ok(Bool(false))
    ensures Coerce(BoolType, "false") == Ok(Bool(false))
    ensures Coerce(BoolType, "0") == Ok(Bool(false))
    ensures Coerce(BoolType, "") == Ok(Bool(false))
  {
  }

  /** The string type, and every descriptor that is not an array or a known tag, return the raw value unchanged. */
  lemma CoerceIdentity(t: IndexType, raw: string)
    requires !t.Array? && t != IntType && t != FloatType && t != BoolType
    ensures Coerce(t, raw) == Ok(Str(raw))
  {
  }

  /**
   * Coercion of a list of integers written with commas, each followed by
   * any number of spaces ("1, 2,3"), gives the integers back.
   */
  lemma CoerceIntListRoundTrip(xs: seq<int>, gaps: seq<nat>)
    requires |xs| == |gaps| + 1
    ensures Coerce(ArrayType(IntType), Listing(IntTexts(xs), gaps)) == Ok(List(Integers(xs)))
  {
    var texts := IntTexts(xs);
    forall i | 0 <= i < |xs| ensures ',' !in texts[i] && (texts[i] == [] || texts[i][0] != ' ') {
      IntTextShape(xs[i]);
    }
    SplitItemsOfListing(texts, gaps);
    CoerceIntTexts(xs);
    CoerceArrayUnfold(IntType, Listing(texts, gaps));
  }

  /** The decimal texts of integers, in order. */
  function IntTexts(xs: seq<int>): (texts: seq<string>)
    ensures |texts| == |xs| && forall i :: 0 <= i < |xs| ==> texts[i] == IntText(xs[i])
  {
    seq(|xs|, i requires 0 <= i < |xs| => IntText(xs[i]))
  }

  /** The Numbers those integers are, in order. */
  function Integers(xs: seq<int>): (vs: seq<Value>)
    ensures |vs| == |xs| && forall i :: 0 <= i < |xs| ==> vs[i] == Integer(xs[i])
  {
    seq(|xs|, i requires 0 <= i < |xs| => Integer(xs[i]))
  }

  /** Each integer's text coerces back to it, so the whole map succeeds. */
  lemma CoerceIntTexts(xs: seq<int>)
    ensures CoerceEach(IntType, IntTexts(xs)) == Ok(Integers(xs))
  {
    var texts := IntTexts(xs);
    forall i | 0 <= i < |xs| ensures Coerce(IntType, texts[i]) == Ok(Integer(xs[i])) {
      CoerceIntRoundTrip(xs[i], "");
      assert texts[i] + "" == texts[i];
    }
    CoerceEachSpec(IntType, texts);
    assert CoerceEach(IntType, texts).value == Integers(xs);
  }

  lemma IntTextShape(i: int)
    ensures IntText(i) != [] && IntText(i)[0] != ' ' && ',' !in IntText(i)
  {
    var d := Decimal(if i < 0 then -i else i);
    assert AllDigits(d);
    if i < 0 {
      assert IntText(i) == "-" + d;
      assert forall k :: 0 <= k < |IntText(i)| ==> IntText(i)[k] == '-' || IsDigit(IntText(i)[k]);
    }
  }
}
