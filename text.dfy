/**
 * String primitives the core relies on: ASCII case mapping (toLowerCase /
 * toUpperCase restricted to ASCII), String.prototype.split with a one-character
 * separator, the split on a comma followed by any spaces used for arrays, and join.
 */
module Text {

  predicate IsUpperLetter(c: char) { 'A' <= c <= 'Z' }

  predicate IsLowerLetter(c: char) { 'a' <= c <= 'z' }

  predicate IsDigit(c: char) { '0' <= c <= '9' }

  function LowerChar(c: char): char
  {
    if IsUpperLetter(c) then (c as int + 32) as char else c
  }

  function UpperChar(c: char): char
  {
    if IsLowerLetter(c) then (c as int - 32) as char else c
  }

  /** `s.toLowerCase()` on ASCII text. */
  function Lower(s: string): (r: string)
    ensures |r| == |s|
  {
    seq(|s|, i requires 0 <= i < |s| => LowerChar(s[i]))
  }

  /** `s.toUpperCase()` on ASCII text. */
  function Upper(s: string): (r: string)
    ensures |r| == |s|
  {
    seq(|s|, i requires 0 <= i < |s| => UpperChar(s[i]))
  }

  lemma LowerAppend(a: string, b: string)
    ensures Lower(a + b) == Lower(a) + Lower(b)
  {
    assert forall i :: 0 <= i < |a + b| ==> Lower(a + b)[i] == (Lower(a) + Lower(b))[i];
  }

  /** Lower-casing forgets the case the text had: both case mappings lower back alike. */
  lemma LowerForgetsCase(s: string)
    ensures Lower(Lower(s)) == Lower(s)
    ensures Lower(Upper(s)) == Lower(s)
    ensures Upper(Lower(s)) == Upper(s)
    ensures Upper(Upper(s)) == Upper(s)
  {
    assert forall i :: 0 <= i < |s| ==> Lower(Upper(s))[i] == Lower(s)[i];
    assert forall i :: 0 <= i < |s| ==> Upper(Lower(s))[i] == Upper(s)[i];
    assert forall i :: 0 <= i < |s| ==> Lower(Lower(s))[i] == Lower(s)[i];
    assert forall i :: 0 <= i < |s| ==> Upper(Upper(s))[i] == Upper(s)[i];
  }

  /** The number of occurrences of `c` in `s`. */
  function Count(s: string, c: char): nat
  {
    if s == [] then 0 else (if s[0] == c then 1 else 0) + Count(s[1..], c)
  }

  /** `parts.join(sep)`. */
  function Join(parts: seq<string>, sep: string): string
  {
    if |parts| == 0 then ""
    else if |parts| == 1 then parts[0]
    else parts[0] + sep + Join(parts[1..], sep)
  }

  /**
   * `s.split(sep)` for a one-character separator: the pieces between
   * occurrences of `sep`; the empty string gives one empty piece.
   */
  function Split(s: string, sep: char): (parts: seq<string>)
    ensures |parts| == Count(s, sep) + 1
    ensures forall i :: 0 <= i < |parts| ==> sep !in parts[i]
    ensures Join(parts, [sep]) == s
    decreases |s|
  {
    if s == [] then [""]
    else
      var rest := Split(s[1..], sep);
      assert s == [s[0]] + s[1..];
      if s[0] == sep then [""] + rest
      else [[s[0]] + rest[0]] + rest[1..]
  }

  /** `s` with every occurrence of `c` removed. */
  function Without(s: string, c: char): (r: string)
    ensures |r| == |s| - Count(s, c)
    ensures c !in r
  {
    if s == [] then ""
    else
      assert s == [s[0]] + s[1..];
      (if s[0] == c then "" else [s[0]]) + Without(s[1..], c)
  }

  /** Joining the pieces of a split with nothing between them drops the separators. */
  lemma {:induction false} ConcatSplit(s: string, sep: char)
    ensures Join(Split(s, sep), "") == Without(s, sep)
    decreases |s|
  {
    if s == [] {
      assert Split(s, sep) == [""];
    } else {
      ConcatSplit(s[1..], sep);
      ConcatSplitStep(s, sep);
    }
  }

  lemma ConcatSplitStep(s: string, sep: char)
    requires s != []
    requires Join(Split(s[1..], sep), "") == Without(s[1..], sep)
    ensures Join(Split(s, sep), "") == Without(s, sep)
  {
    var rest := Split(s[1..], sep);
    if s[0] == sep {
      assert Split(s, sep) == [""] + rest;
      JoinCons("", rest, "");
    } else {
      ConcatSplitKeep(s[0], rest[0], rest[1..]);
      assert [rest[0]] + rest[1..] == rest;
      assert Split(s, sep) == [[s[0]] + rest[0]] + rest[1..];
    }
  }

  lemma ConcatSplitKeep(c: char, p: string, tail: seq<string>)
    ensures Join([[c] + p] + tail, "") == [c] + Join([p] + tail, "")
  {
    JoinNoSep([c] + p, tail);
    JoinNoSep(p, tail);
    var j := Join(tail, "");
    assert ([c] + p) + j == [c] + (p + j);
  }

  /** With an empty separator, joining is plain concatenation, one part at a time. */
  lemma JoinNoSep(p: string, tail: seq<string>)
    ensures Join([p] + tail, "") == p + Join(tail, "")
  {
    JoinCons(p, tail, "");
    if tail == [] {
      assert p + "" == p;
    } else {
      assert p + "" + Join(tail, "") == p + Join(tail, "");
    }
  }

  lemma JoinCons(p: string, rest: seq<string>, sep: string)
    ensures rest == [] ==> Join([p] + rest, sep) == p
    ensures rest != [] ==> Join([p] + rest, sep) == p + sep + Join(rest, sep)
  {
    if rest != [] {
      assert ([p] + rest)[1..] == rest;
    }
  }

  /** A run of `n` spaces. */
  function Spaces(n: nat): (r: string)
    ensures |r| == n && forall i :: 0 <= i < n ==> r[i] == ' '
  {
    seq(n, _ => ' ')
  }

  // What the greedy ` *` part of the pattern `/, */` consumes: the leading spaces.
  function DropSpaces(s: string): (r: string)
    ensures |r| <= |s|
    ensures r == [] || r[0] != ' '
    ensures Count(r, ',') == Count(s, ',')
  {
    if s != [] && s[0] == ' ' then
      assert s == [s[0]] + s[1..];
      DropSpaces(s[1..])
    else s
  }

  // `s.split(/, */)`: a piece ends at each comma, and the comma together
  // with every space right after it is the separator.
  function SplitItems(s: string): (parts: seq<string>)
    ensures |parts| == Count(s, ',') + 1
    ensures forall i :: 0 <= i < |parts| ==> ',' !in parts[i]
    decreases |s|
  {
    if s == [] then [""]
    else
      assert s == [s[0]] + s[1..];
      if s[0] == ',' then [""] + SplitItems(DropSpaces(s[1..]))
      else
        var rest := SplitItems(s[1..]);
        [[s[0]] + rest[0]] + rest[1..]
  }

  lemma {:induction false} SplitItemsNoComma(p: string)
    requires ',' !in p
    ensures SplitItems(p) == [p]
    decreases |p|
  {
    if p != [] {
      SplitItemsNoComma(p[1..]);
      assert [p[0]] + p[1..] == p;
    }
  }

  lemma SplitItemsCons(c: char, t: string)
    requires c != ','
    ensures SplitItems([c] + t) == [[c] + SplitItems(t)[0]] + SplitItems(t)[1..]
  {
    assert ([c] + t)[1..] == t;
  }

  lemma {:induction false} SplitItemsPrefix(p: string, t: string)
    requires ',' !in p
    ensures SplitItems(p + t) == [p + SplitItems(t)[0]] + SplitItems(t)[1..]
    decreases |p|
  {
    if p == [] {
      assert p + t == t;
      assert p + SplitItems(t)[0] == SplitItems(t)[0];
      assert [SplitItems(t)[0]] + SplitItems(t)[1..] == SplitItems(t);
    } else {
      var q := p[1..] + t;
      assert p + t == [p[0]] + q;
      SplitItemsPrefix(p[1..], t);
      SplitItemsCons(p[0], q);
      var rest := SplitItems(q);
      assert rest[0] == p[1..] + SplitItems(t)[0];
      assert rest[1..] == SplitItems(t)[1..];
      assert [p[0]] + (p[1..] + SplitItems(t)[0]) == p + SplitItems(t)[0];
    }
  }

  lemma {:induction false} DropSpacesPrefix(n: nat, t: string)
    requires t == [] || t[0] != ' '
    ensures DropSpaces(Spaces(n) + t) == t
    decreases n
  {
    if n > 0 {
      assert (Spaces(n) + t)[1..] == Spaces(n - 1) + t;
      DropSpacesPrefix(n - 1, t);
    }
  }

  /**
   * Pieces written one after the other, each separator a comma followed by
   * its own number of spaces (`gaps[i]` after piece `i`).
   */
  function Listing(parts: seq<string>, gaps: seq<nat>): string
    requires |parts| == |gaps| + 1
    decreases |gaps|
  {
    if gaps == [] then parts[0]
    else parts[0] + ([','] + Spaces(gaps[0])) + Listing(parts[1..], gaps[1..])
  }

  lemma ListingStart(parts: seq<string>, gaps: seq<nat>)
    requires |parts| == |gaps| + 1
    requires parts[0] == [] || parts[0][0] != ' '
    ensures Listing(parts, gaps) == [] || Listing(parts, gaps)[0] != ' '
  {
    if gaps != [] && parts[0] == [] {
      assert Listing(parts, gaps) == ([','] + Spaces(gaps[0])) + Listing(parts[1..], gaps[1..]);
    }
  }

  /**
   * Round trip of the array split: pieces without commas, written with a
   * comma and any number of spaces between neighbours ("a, b,c"), split
   * back into the same pieces, provided no piece after the first starts
   * with a space (those spaces would be read as part of the separator).
   */
  lemma {:induction false} SplitItemsOfListing(parts: seq<string>, gaps: seq<nat>)
    requires |parts| == |gaps| + 1
    requires forall i :: 0 <= i < |parts| ==> ',' !in parts[i]
    requires forall i :: 1 <= i < |parts| ==> parts[i] == [] || parts[i][0] != ' '
    ensures SplitItems(Listing(parts, gaps)) == parts
    decreases |gaps|
  {
    if gaps == [] {
      SplitItemsNoComma(parts[0]);
    } else {
      var rest := parts[1..];
      var j := Listing(rest, gaps[1..]);
      SplitItemsOfListing(rest, gaps[1..]);
      ListingStart(rest, gaps[1..]);
      var t := ([','] + Spaces(gaps[0])) + j;
      assert Listing(parts, gaps) == parts[0] + t;
      SplitItemsAfterComma(gaps[0], j);
      SplitItemsPrefix(parts[0], t);
      assert parts[0] + "" == parts[0];
      assert [parts[0]] + rest == parts;
    }
  }

  /** A comma and its spaces end the current piece; the text after them starts the next. */
  lemma SplitItemsAfterComma(gap: nat, j: string)
    requires j == [] || j[0] != ' '
    ensures SplitItems(([','] + Spaces(gap)) + j) == [""] + SplitItems(j)
  {
    var t := ([','] + Spaces(gap)) + j;
    assert t[1..] == Spaces(gap) + j;
    DropSpacesPrefix(gap, j);
  }

  /** Joining with one fixed gap is a listing whose gaps are all that gap. */
  lemma {:induction false} JoinIsListing(parts: seq<string>, gap: nat)
    requires |parts| >= 1
    ensures Join(parts, [','] + Spaces(gap)) == Listing(parts, seq(|parts| - 1, _ => gap))
    decreases |parts|
  {
    var gaps := seq(|parts| - 1, _ => gap);
    if |parts| > 1 {
      JoinIsListing(parts[1..], gap);
      assert gaps[1..] == seq(|parts[1..]| - 1, _ => gap);
    }
  }

  /** The same round trip with one fixed gap after every comma ("a, b, c"). */
  lemma SplitItemsOfJoin(parts: seq<string>, gap: nat)
    requires |parts| >= 1
    requires forall i :: 0 <= i < |parts| ==> ',' !in parts[i]
    requires forall i :: 1 <= i < |parts| ==> parts[i] == [] || parts[i][0] != ' '
    ensures SplitItems(Join(parts, [','] + Spaces(gap))) == parts
  {
    JoinIsListing(parts, gap);
    SplitItemsOfListing(parts, seq(|parts| - 1, _ => gap));
  }
}
