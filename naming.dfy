/**
 * `getAttrName` (identical in index.js and utils.js): the accessor name derived
 * from a variable name. The name is split on "_", each word is lower-cased, a
 * word whose upper-case form is a registered acronym is written upper-case,
 * the first word stays lower-case and every later word is capitalised.
 * The acronym registry is a parameter.
 */
module Naming {
  import opened Wrappers
  import opened Values
  import opened Text

  /**
   * One word at position `index`; None when the source would read `word[0]`
   * of an empty word and throw a TypeError.
   */
  function ConvertWord(word: string, index: nat, acronyms: seq<string>): Option<string>
  {
    var w := Lower(word);
    var acronym := Upper(w);
    if acronym in acronyms then Some(acronym)
    else if index == 0 then Some(w)
    else if w == [] then None
    else Some([UpperChar(w[0])] + w[1..])
  }

  /** `words.map(...).join("")` for the words from position `index` on. */
  function ConvertWords(words: seq<string>, index: nat, acronyms: seq<string>): Option<string>
    decreases |words|
  {
    if words == [] then Some("")
    else
      var head := ConvertWord(words[0], index, acronyms);
      var tail := ConvertWords(words[1..], index + 1, acronyms);
      if head.Some? && tail.Some? then Some(head.value + tail.value) else None
  }

  /** `getAttrName(value)`. */
  function GetAttrName(name: string, acronyms: seq<string>): Result<string, Error>
  {
    var r := ConvertWords(Split(name, '_'), 0, acronyms);
    if r.Some? then Ok(r.value) else Err(UndefinedWordStart)
  }

  lemma {:induction false} ConvertWordsFailsIff(words: seq<string>, index: nat, acronyms: seq<string>)
    ensures ConvertWords(words, index, acronyms).None? <==>
      exists i :: 0 <= i < |words| && index + i > 0 && words[i] == "" && "" !in acronyms
    decreases |words|
  {
    if words != [] {
      ConvertWordsFailsIff(words[1..], index + 1, acronyms);
      assert Lower(words[0]) == [] <==> words[0] == [];
      assert Upper([]) == "";
      if ConvertWords(words[1..], index + 1, acronyms).None? {
        var i :| 0 <= i < |words| - 1 && index + 1 + i > 0 && words[1..][i] == "" && "" !in acronyms;
        assert words[i + 1] == "";
      }
      if exists i :: 0 <= i < |words| && index + i > 0 && words[i] == "" && "" !in acronyms {
        var i :| 0 <= i < |words| && index + i > 0 && words[i] == "" && "" !in acronyms;
        if i > 0 {
          assert words[1..][i - 1] == "";
        }
      }
    }
  }

  /**
   * Derivation fails exactly when a word after the first is empty ("A__B",
   * a trailing "_") and the empty string is not a registered acronym.
   */
  lemma AttrNameFailsIff(name: string, acronyms: seq<string>)
    ensures var words := Split(name, '_');
      GetAttrName(name, acronyms).Err? <==>
      exists i :: 1 <= i < |words| && words[i] == "" && "" !in acronyms
  {
    ConvertWordsFailsIff(Split(name, '_'), 0, acronyms);
  }

  lemma LowerCapitalised(w: string)
    requires w != []
    ensures Lower([UpperChar(w[0])] + w[1..]) == Lower(w)
  {
    LowerAppend([UpperChar(w[0])], w[1..]);
    LowerAppend([w[0]], w[1..]);
    assert [w[0]] + w[1..] == w;
  }

  lemma ConvertWordCase(word: string, index: nat, acronyms: seq<string>)
    requires ConvertWord(word, index, acronyms).Some?
    ensures Lower(ConvertWord(word, index, acronyms).value) == Lower(word)
  {
    LowerForgetsCase(word);
    LowerForgetsCase(Lower(word));
    var w := Lower(word);
    if Upper(w) !in acronyms && index != 0 {
      LowerCapitalised(w);
    }
  }

  lemma {:induction false} ConvertWordsCase(words: seq<string>, index: nat, acronyms: seq<string>)
    requires ConvertWords(words, index, acronyms).Some?
    ensures Lower(ConvertWords(words, index, acronyms).value) == Lower(Join(words, ""))
    decreases |words|
  {
    if words != [] {
      var head := ConvertWord(words[0], index, acronyms).value;
      var tail := ConvertWords(words[1..], index + 1, acronyms).value;
      ConvertWordsCase(words[1..], index + 1, acronyms);
      ConvertWordCase(words[0], index, acronyms);
      LowerAppend(head, tail);
      JoinCons(words[0], words[1..], "");
      assert [words[0]] + words[1..] == words;
      if |words| > 1 {
        LowerAppend(words[0], Join(words[1..], ""));
      }
    }
  }

  /**
   * The derived name is the variable name without its underscores, differing
   * only in letter case: lower-cased, the two agree, and so do their lengths.
   */
  lemma AttrNameDropsUnderscores(name: string, acronyms: seq<string>)
    requires GetAttrName(name, acronyms).Ok?
    ensures var r := GetAttrName(name, acronyms).value;
      Lower(r) == Lower(Without(name, '_')) && |r| == |name| - Count(name, '_')
  {
    ConvertWordsCase(Split(name, '_'), 0, acronyms);
    ConcatSplit(name, '_');
  }

  lemma LowerCharUnderscore(c: char)
    ensures LowerChar(c) == '_' <==> c == '_'
  {
  }

  lemma {:induction false} SplitSameCase(a: string, b: string)
    requires Lower(a) == Lower(b)
    ensures |Split(a, '_')| == |Split(b, '_')|
    ensures forall i :: 0 <= i < |Split(a, '_')| ==> Lower(Split(a, '_')[i]) == Lower(Split(b, '_')[i])
    decreases |a|
  {
    if a != [] {
      assert Lower(a)[0] == Lower(b)[0];
      LowerCharUnderscore(a[0]);
      LowerCharUnderscore(b[0]);
      assert Lower(a[1..]) == Lower(a)[1..] && Lower(b[1..]) == Lower(b)[1..];
      SplitSameCase(a[1..], b[1..]);
      var ra, rb := Split(a[1..], '_'), Split(b[1..], '_');
      if a[0] != '_' {
        LowerAppend([a[0]], ra[0]);
        LowerAppend([b[0]], rb[0]);
        assert Lower([a[0]]) == Lower([b[0]]);
      }
      forall i | 0 <= i < |Split(a, '_')|
        ensures Lower(Split(a, '_')[i]) == Lower(Split(b, '_')[i])
      {
        if i > 0 {
          if a[0] == '_' {
            assert Split(a, '_')[i] == ra[i - 1] && Split(b, '_')[i] == rb[i - 1];
          } else {
            assert Split(a, '_')[i] == ra[i] && Split(b, '_')[i] == rb[i];
          }
        }
      }
    }
  }

  lemma {:induction false} ConvertWordsSameCase(ws: seq<string>, vs: seq<string>, index: nat, acronyms: seq<string>)
    requires |ws| == |vs|
    requires forall i :: 0 <= i < |ws| ==> Lower(ws[i]) == Lower(vs[i])
    ensures ConvertWords(ws, index, acronyms) == ConvertWords(vs, index, acronyms)
    decreases |ws|
  {
    if ws != [] {
      ConvertWordsSameCase(ws[1..], vs[1..], index + 1, acronyms);
    }
  }

  /**
   * The case of the variable name does not matter: names that agree once
   * lower-cased ("APP_NAME", "app_name", "App_Name") derive the same accessor
   * name, or fail alike.
   */
  lemma AttrNameIgnoresCase(a: string, b: string, acronyms: seq<string>)
    requires Lower(a) == Lower(b)
    ensures GetAttrName(a, acronyms) == GetAttrName(b, acronyms)
  {
    SplitSameCase(a, b);
    ConvertWordsSameCase(Split(a, '_'), Split(b, '_'), 0, acronyms);
  }

  /** "APP_NAME" gives "appName" when neither of its words is a registered acronym. */
  lemma AttrNameExamples(acronyms: seq<string>)
    requires "APP" !in acronyms && "NAME" !in acronyms
    ensures GetAttrName("APP_NAME", acronyms) == Ok("appName")
  {
    SplitTwo("APP", "NAME");
    assert "APP" + "_" + "NAME" == "APP_NAME";
    AppNameWords(acronyms);
    ConvertTwo("APP", "NAME", acronyms);
    assert "app" + "Name" == "appName";
  }

  /**
   * A name without "_" is one word, only lower-cased (or upper-cased when it
   * is a registered acronym): "TZ" gives "tz".
   */
  lemma AttrNameOneWord(word: string, acronyms: seq<string>)
    requires '_' !in word
    ensures GetAttrName(word, acronyms) ==
      Ok(if Upper(Lower(word)) in acronyms then Upper(Lower(word)) else Lower(word))
  {
    SplitNoSep(word);
    var v := ConvertWord(word, 0, acronyms).value;
    assert [word][1..] == [];
    assert ConvertWords([word], 0, acronyms) == Some(v + "");
    assert v + "" == v;
  }

  /**
   * A registered acronym is written upper-case at any position, the first
   * included: "RTSP_SERVER" gives "RTSPServer" once "RTSP" is registered.
   */
  lemma AttrNameAcronymExamples(acronyms: seq<string>)
    requires "RTSP" in acronyms && "SERVER" !in acronyms
    ensures GetAttrName("RTSP_SERVER", acronyms) == Ok("RTSPServer")
  {
    SplitTwo("RTSP", "SERVER");
    assert "RTSP" + "_" + "SERVER" == "RTSP_SERVER";
    RtspServerWords(acronyms);
    ConvertTwo("RTSP", "SERVER", acronyms);
    assert "RTSP" + "Server" == "RTSPServer";
  }

  /** "PREFIX_X_SUFFIX" keeps a registered acronym X upper-case in the middle: "prefixXSuffix". */
  lemma AttrNameMiddleAcronym(x: string, acronyms: seq<string>)
    requires x != [] && x == Upper(x) && '_' !in x
    requires x in acronyms && "PREFIX" !in acronyms && "SUFFIX" !in acronyms
    ensures GetAttrName("PREFIX_" + x + "_SUFFIX", acronyms) == Ok("prefix" + x + "Suffix")
  {
    SplitThree("PREFIX", x, "SUFFIX");
    assert "PREFIX" + "_" + x + "_" + "SUFFIX" == "PREFIX_" + x + "_SUFFIX";
    WordAcronym(x, 1, acronyms);
    PrefixSuffixWords(acronyms);
    ConvertThree("PREFIX", x, "SUFFIX", acronyms);
    assert "prefix" + (x + "Suffix") == "prefix" + x + "Suffix";
  }

  /** A word that is not an acronym is only lower-cased in first position. */
  lemma WordPlain(word: string, acronyms: seq<string>)
    requires Upper(Lower(word)) !in acronyms
    ensures ConvertWord(word, 0, acronyms) == Some(Lower(word))
  {
  }

  /** A word that is not an acronym is capitalised after the first position. */
  lemma WordCapitalised(word: string, index: nat, acronyms: seq<string>)
    requires index > 0 && word != [] && Upper(Lower(word)) !in acronyms
    ensures var w := Lower(word); ConvertWord(word, index, acronyms) == Some([UpperChar(w[0])] + w[1..])
  {
  }

  /** A registered acronym written upper-case stays as it is, at any position. */
  lemma WordAcronym(x: string, index: nat, acronyms: seq<string>)
    requires x == Upper(x) && x in acronyms
    ensures ConvertWord(x, index, acronyms) == Some(x)
  {
    LowerForgetsCase(x);
  }

  lemma AppNameWords(acronyms: seq<string>)
    requires "APP" !in acronyms && "NAME" !in acronyms
    ensures ConvertWord("APP", 0, acronyms) == Some("app")
    ensures ConvertWord("NAME", 1, acronyms) == Some("Name")
  {
    assert Lower("APP") == "app" && Upper("app") == "APP";
    WordPlain("APP", acronyms);
    var w := "name";
    assert Lower("NAME") == w && Upper(w) == "NAME";
    WordCapitalised("NAME", 1, acronyms);
    assert [UpperChar(w[0])] + w[1..] == "Name";
  }

  lemma RtspServerWords(acronyms: seq<string>)
    requires "RTSP" in acronyms && "SERVER" !in acronyms
    ensures ConvertWord("RTSP", 0, acronyms) == Some("RTSP")
    ensures ConvertWord("SERVER", 1, acronyms) == Some("Server")
  {
    assert Upper("RTSP") == "RTSP";
    WordAcronym("RTSP", 0, acronyms);
    var w := "server";
    assert Lower("SERVER") == w && Upper(w) == "SERVER";
    WordCapitalised("SERVER", 1, acronyms);
    assert [UpperChar(w[0])] + w[1..] == "Server";
  }

  lemma PrefixSuffixWords(acronyms: seq<string>)
    requires "PREFIX" !in acronyms && "SUFFIX" !in acronyms
    ensures ConvertWord("PREFIX", 0, acronyms) == Some("prefix")
    ensures ConvertWord("SUFFIX", 2, acronyms) == Some("Suffix")
  {
    assert Lower("PREFIX") == "prefix" && Upper("prefix") == "PREFIX";
    WordPlain("PREFIX", acronyms);
    var w := "suffix";
    assert Lower("SUFFIX") == w && Upper(w) == "SUFFIX";
    WordCapitalised("SUFFIX", 2, acronyms);
    assert [UpperChar(w[0])] + w[1..] == "Suffix";
  }

  lemma ConvertTwo(a: string, b: string, acronyms: seq<string>)
    requires ConvertWord(a, 0, acronyms).Some? && ConvertWord(b, 1, acronyms).Some?
    ensures ConvertWords([a, b], 0, acronyms) ==
            Some(ConvertWord(a, 0, acronyms).value + ConvertWord(b, 1, acronyms).value)
  {
    assert [a, b][1..] == [b];
    assert ConvertWords([b][1..], 2, acronyms) == Some("");
    assert ConvertWord(b, 1, acronyms).value + "" == ConvertWord(b, 1, acronyms).value;
  }

  lemma ConvertThree(a: string, b: string, c: string, acronyms: seq<string>)
    requires ConvertWord(a, 0, acronyms).Some? && ConvertWord(b, 1, acronyms).Some?
    requires ConvertWord(c, 2, acronyms).Some?
    ensures ConvertWords([a, b, c], 0, acronyms) ==
            Some(ConvertWord(a, 0, acronyms).value +
                 (ConvertWord(b, 1, acronyms).value + ConvertWord(c, 2, acronyms).value))
  {
    var vb, vc := ConvertWord(b, 1, acronyms).value, ConvertWord(c, 2, acronyms).value;
    assert [c][1..] == [];
    assert ConvertWords([c], 2, acronyms) == Some(vc + "");
    assert vc + "" == vc;
    assert [b, c][1..] == [c];
    assert ConvertWords([b, c], 1, acronyms) == Some(vb + vc);
    assert [a, b, c][1..] == [b, c];
  }

  lemma SplitTwo(a: string, b: string)
    requires '_' !in a && '_' !in b
    ensures Split(a + "_" + b, '_') == [a, b]
  {
    SplitOfJoin([a, b]);
    JoinCons(a, [b], "_");
    assert [a] + [b] == [a, b];
  }

  lemma SplitThree(a: string, b: string, c: string)
    requires '_' !in a && '_' !in b && '_' !in c
    ensures Split(a + "_" + b + "_" + c, '_') == [a, b, c]
  {
    var words := [a, b, c];
    assert words[0] == a && words[1] == b && words[2] == c;
    SplitOfJoin(words);
    JoinCons(b, [c], "_");
    assert [b] + [c] == words[1..];
    JoinCons(a, words[1..], "_");
    assert [a] + words[1..] == words;
    assert a + "_" + (b + "_" + c) == a + "_" + b + "_" + c;
  }

  lemma {:induction false} SplitNoSep(p: string)
    requires '_' !in p
    ensures Split(p, '_') == [p]
    decreases |p|
  {
    if p != [] {
      SplitNoSep(p[1..]);
      assert [p[0]] + p[1..] == p;
    }
  }

  lemma {:induction false} SplitPrefix(p: string, t: string)
    requires '_' !in p
    ensures Split(p + t, '_') == [p + Split(t, '_')[0]] + Split(t, '_')[1..]
    decreases |p|
  {
    if p == [] {
      assert p + t == t;
      assert p + Split(t, '_')[0] == Split(t, '_')[0];
      assert [Split(t, '_')[0]] + Split(t, '_')[1..] == Split(t, '_');
    } else {
      var q := p[1..] + t;
      assert p + t == [p[0]] + q;
      assert ([p[0]] + q)[1..] == q;
      SplitPrefix(p[1..], t);
      var rest := Split(q, '_');
      assert rest[0] == p[1..] + Split(t, '_')[0];
      assert [p[0]] + (p[1..] + Split(t, '_')[0]) == p + Split(t, '_')[0];
    }
  }

  /** Splitting words that hold no "_" after joining them with "_" gives the words back. */
  lemma {:induction false} SplitOfJoin(words: seq<string>)
    requires |words| >= 1
    requires forall i :: 0 <= i < |words| ==> '_' !in words[i]
    ensures Split(Join(words, "_"), '_') == words
    decreases |words|
  {
    if |words| == 1 {
      SplitNoSep(words[0]);
    } else {
      var rest := words[1..];
      SplitOfJoin(rest);
      var t := "_" + Join(rest, "_");
      assert Join(words, "_") == words[0] + t;
      SplitPrefix(words[0], t);
      assert t[1..] == Join(rest, "_");
      assert Split(t, '_') == [""] + rest;
      assert words[0] + "" == words[0];
      assert [words[0]] + rest == words;
    }
  }
}
