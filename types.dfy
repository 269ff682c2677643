/**
 * types.js: descriptors are flat lists of tag strings. The scalar descriptors
 * are one-tag lists, and `array(type = ["string"])` is `["array", ...type]`.
 */
module Types {

  type Descriptor = seq<string>

  const String: Descriptor := ["string"]
  const Float: Descriptor := ["float"]
  const Bool: Descriptor := ["bool"]
  const Int: Descriptor := ["int"]

  /** `array(t)`: a fresh list, "array" followed by the tags of `t`. */
  function ArrayOf(t: Descriptor): (r: Descriptor)
    ensures |r| == |t| + 1 && r[0] == "array" && r[1..] == t
  {
    ["array"] + t
  }

  /** `array()`: the element type defaults to `string`. */
  function ArrayOfStrings(): (r: Descriptor)
    ensures r == ["array", "string"]
  {
    ArrayOf(String)
  }

  /** Nesting flattens: `array(array(int))` is the three-tag list ["array", "array", "int"]. */
  lemma NestedArrayIsFlat()
    ensures ArrayOf(ArrayOf(Int)) == ["array", "array", "int"]
  {
  }
}
