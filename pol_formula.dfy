/**
 * Recognising a chemical formula at the head of a column name, as the three
 * regular expressions of the importer do:
 *
 *   COMPRE   `^(([A-Z][A-Za-z]{,2}\d{,2})+)(.*?)$`  splits a name into a formula and a rest,
 *   COMPELRE `[A-Z][A-Za-z]{,2}\d{,2}`              finds the formula's tokens,
 *   ELRE     `^([A-Z][A-Za-z]{,2})+(.*)$`           takes the element symbol of the first token.
 *
 * A token is an upper-case Latin letter, at most two more Latin letters of either
 * case, and at most two digits, each part taken greedily.
 */
module PolFormula {
  import opened Options
  import opened Text
  import opened Rdf
  import opened PolNames

  /** Length of the run of `p`-characters starting at `i`, at most `limit` (a greedy `p{,limit}`). */
  function Run(s: string, i: nat, p: char -> bool, limit: nat): (n: nat)
    requires i <= |s|
    ensures n <= limit && i + n <= |s|
    ensures forall k | i <= k < i + n :: p(s[k])
    ensures n < limit && i + n < |s| ==> !p(s[i + n])
    decreases limit
  {
    if limit == 0 || i == |s| || !p(s[i]) then 0 else 1 + Run(s, i + 1, p, limit - 1)
  }

  /** End of the letters of the token starting at `i`: `[A-Z][A-Za-z]{,2}`. */
  function LettersEnd(s: string, i: nat): (j: nat)
    requires i < |s| && IsAsciiUpper(s[i])
    ensures i < j <= i + 3 && j <= |s|
    ensures forall k | i <= k < j :: IsAsciiLetter(s[k])
  {
    i + 1 + Run(s, i + 1, IsAsciiLetter, 2)
  }

  /** End of the greedy token `[A-Z][A-Za-z]{,2}\d{,2}` starting at `i`. */
  function TokenEnd(s: string, i: nat): (j: nat)
    requires i < |s| && IsAsciiUpper(s[i])
    ensures i < j <= i + 5 && j <= |s|
    ensures forall k | i <= k < j :: IsAsciiLetter(s[k]) || IsDigit(s[k])
  {
    var l := LettersEnd(s, i);
    l + Run(s, l, IsDigit, 2)
  }

  /** The tokens of the repeated group of COMPRE, from `i` on. */
  function Tokens(s: string, i: nat): seq<string>
    requires i <= |s|
    decreases |s| - i
  {
    if i < |s| && IsAsciiUpper(s[i]) then
      var j := TokenEnd(s, i);
      [s[i..j]] + Tokens(s, j)
    else []
  }

  /** Where the repeated group of COMPRE stops: no further token can start there. */
  function FormulaEnd(s: string, i: nat): (e: nat)
    requires i <= |s|
    ensures i <= e <= |s|
    ensures e < |s| ==> !IsAsciiUpper(s[e])
    ensures forall k | i <= k < e :: IsAsciiLetter(s[k]) || IsDigit(s[k])
    decreases |s| - i
  {
    if i < |s| && IsAsciiUpper(s[i]) then FormulaEnd(s, TokenEnd(s, i)) else i
  }

  /** `COMPELRE.findall(s[i..])`: scan left to right, skipping characters where no token starts. */
  function FindAll(s: string, i: nat): seq<string>
    requires i <= |s|
    decreases |s| - i
  {
    if i == |s| then []
    else if IsAsciiUpper(s[i]) then
      var j := TokenEnd(s, i);
      [s[i..j]] + FindAll(s, j)
    else FindAll(s, i + 1)
  }

  /** Group 1 of ELRE on `t[i..]`: the last of the repeated `[A-Z][A-Za-z]{,2}` iterations. */
  function ElreGroup(t: string, i: nat): string
    requires i < |t| && IsAsciiUpper(t[i])
    decreases |t| - i
  {
    var l := LettersEnd(t, i);
    if l < |t| && IsAsciiUpper(t[l]) then ElreGroup(t, l) else t[i..l]
  }

  /** COMPRE matches: a leading upper-case Latin letter, and no line break before the last character. */
  predicate Matches(name: string) {
    name != [] && IsAsciiUpper(name[0]) && forall k | 0 <= k < |name| - 1 :: name[k] != '\n'
  }

  /** Group 3 of COMPRE: the text after the formula, less a final line break (`$` matches before it). */
  function RestAfter(name: string, e: nat): string
    requires e <= |name|
  {
    if e < |name| && name[|name| - 1] == '\n' then name[e..|name| - 1] else name[e..]
  }

  /** How `proc_comp` reads a column name. */
  datatype Formula =
      /** COMPRE does not match. */
    | NoFormula
      /** The first token's symbol is no element: the column is not chemical. */
    | NotChemical(comp: string, rest: string)
      /** Several tokens, or a first token with digits: a compound such as an oxide. */
    | Compound(comp: string, rest: string)
      /** A single token that is an element symbol. */
    | Element(symbol: string, iri: Term, rest: string)

  /**
   * The formula analysis of `proc_comp` on an (already stripped) column name, with
   * `elements` the periodic table keyed by symbol.
   */
  function Recognise(name: string, elements: map<string, Term>): (r: Formula)
    ensures r.NoFormula? <==> !Matches(name)
    ensures r.Element? ==> Elem(r.symbol, elements) == Some(r.iri) && r.symbol <= name
    ensures r.NotChemical? || r.Compound? ==> r.comp != [] && r.comp <= name
  {
    if !Matches(name) then NoFormula
    else
      var e := FormulaEnd(name, 0);
      var comp := name[..e];
      var rest := RestAfter(name, e);
      FindAllFormula(name, 0);
      var rc := FindAll(comp, 0);
      var el1 := rc[0];
      var el := ElreGroup(el1, 0);
      ElreOnFirstToken(name);
      match Elem(el, elements)
      case None => NotChemical(comp, rest)
      case Some(iri) =>
        if |rc| > 1 || el1 != el then Compound(comp, rest) else Element(el, iri, rest)
  }

  // ---------------------------------------------------------------- lemmas

  /** A greedy run reads the same on a prefix that still holds it. */
  lemma {:induction false} RunOnPrefix(s: string, c: string, i: nat, p: char -> bool, limit: nat)
    requires c <= s && i <= |c| && i + Run(s, i, p, limit) <= |c|
    ensures Run(c, i, p, limit) == Run(s, i, p, limit)
    decreases limit
  {
    if limit != 0 && i < |c| && p(s[i]) {
      RunOnPrefix(s, c, i + 1, p, limit - 1);
    }
  }

  lemma TokenOnPrefix(s: string, c: string, i: nat)
    requires c <= s && i < |s| && IsAsciiUpper(s[i]) && TokenEnd(s, i) <= |c|
    ensures TokenEnd(c, i) == TokenEnd(s, i)
  {
    RunOnPrefix(s, c, i + 1, IsAsciiLetter, 2);
    var l := LettersEnd(s, i);
    RunOnPrefix(s, c, l, IsDigit, 2);
  }

  /** The tokens put back together are exactly the formula, group 1 of COMPRE. */
  lemma {:induction false} TokensConcat(s: string, i: nat)
    requires i <= |s|
    ensures Concat(Tokens(s, i)) == s[i..FormulaEnd(s, i)]
    decreases |s| - i
  {
    if i < |s| && IsAsciiUpper(s[i]) {
      var j := TokenEnd(s, i);
      TokensConcat(s, j);
      var ts := Tokens(s, i);
      var e := FormulaEnd(s, j);
      assert FormulaEnd(s, i) == e && j <= e;
      assert ts == [s[i..j]] + Tokens(s, j);
      ConcatCons(s[i..j], Tokens(s, j));
      SliceSplit(s, i, j, e);
    }
  }

  /**
   * `COMPELRE.findall` on the formula finds exactly the tokens of COMPRE's repeated
   * group: searching the formula alone loses no token and splits none differently.
   */
  lemma {:induction false} FindAllFormula(s: string, i: nat)
    requires i <= |s|
    ensures FindAll(s[..FormulaEnd(s, i)], i) == Tokens(s, i)
    decreases |s| - i
  {
    var e := FormulaEnd(s, i);
    var c := s[..e];
    if i < |s| && IsAsciiUpper(s[i]) {
      var j := TokenEnd(s, i);
      assert e == FormulaEnd(s, j);
      FindAllFormula(s, j);
      assert j <= e;
      TokenOnPrefix(s, c, i);
      SliceOfPrefix(s, e, i, j);
      assert FindAll(c, i) == [c[i..j]] + FindAll(c, j);
    } else {
      assert |c| == i;
    }
  }

  /** ELRE's group 1 on the first token is its leading letters: the token allows one iteration only. */
  lemma ElreOnFirstToken(name: string)
    requires Matches(name)
    ensures |FindAll(name[..FormulaEnd(name, 0)], 0)| >= 1
    ensures var t := FindAll(name[..FormulaEnd(name, 0)], 0)[0];
      t == name[..TokenEnd(name, 0)] && IsAsciiUpper(t[0]) &&
      ElreGroup(t, 0) == name[..LettersEnd(name, 0)]
  {
    FindAllFormula(name, 0);
    var j := TokenEnd(name, 0);
    var t := name[..j];
    assert Tokens(name, 0)[0] == t;
    var l := LettersEnd(name, 0);
    RunOnPrefix(name, t, 1, IsAsciiLetter, 2);
    assert LettersEnd(t, 0) == l;
    assert l < |t| ==> IsDigit(t[l]);
    ElreGroupLast(t);
    PrefixOfPrefix(name, j, l);
  }

  /** When no upper-case letter follows the first letters, ELRE's group is those letters. */
  lemma ElreGroupLast(t: string)
    requires t != [] && IsAsciiUpper(t[0])
    requires var l := LettersEnd(t, 0); l < |t| ==> !IsAsciiUpper(t[l])
    ensures ElreGroup(t, 0) == t[..LettersEnd(t, 0)]
  {
  }

  lemma FormulaSplit(name: string)
    requires Matches(name)
    ensures var e := FormulaEnd(name, 0);
      var rest := RestAfter(name, e);
      (name == name[..e] + rest || name == name[..e] + rest + "\n") &&
      (rest != [] ==> !IsAsciiUpper(rest[0]))
  {
    var e := FormulaEnd(name, 0);
    var rest := RestAfter(name, e);
    if e < |name| && name[|name| - 1] == '\n' {
      assert rest == name[e..|name| - 1];
      assert name == name[..e] + name[e..|name| - 1] + "\n" by {
        assert name[e..] == name[e..|name| - 1] + "\n";
        assert name == name[..e] + name[e..];
      }
    } else {
      assert rest == name[e..];
      assert name == name[..e] + name[e..];
    }
    if rest != [] {
      assert rest[0] == name[e];
    }
  }

  /** A name is split into the formula and the rest, and the formula cannot be extended. */
  lemma RecogniseSplits(name: string, elements: map<string, Term>)
    requires Matches(name)
    ensures var r := Recognise(name, elements);
      r.NotChemical? || r.Compound? ==>
        Concat(Tokens(name, 0)) == r.comp &&
        (name == r.comp + r.rest || name == r.comp + r.rest + "\n") &&
        (r.rest != [] ==> !IsAsciiUpper(r.rest[0]))
  {
    FormulaSplit(name);
    TokensConcat(name, 0);
  }

  /**
   * A column names an element exactly when its formula is one token without digits
   * whose symbol is in the table; every other formula led by an element symbol is a
   * compound. So the "unknown combination" exit of `proc_comp` cannot be reached.
   */
  lemma RecogniseElement(name: string, elements: map<string, Term>)
    requires Matches(name)
    ensures var r := Recognise(name, elements);
      var ts := Tokens(name, 0);
      var sym := name[..LettersEnd(name, 0)];
      |ts| >= 1 &&
      (r.Element? <==> |ts| == 1 && ts[0] == sym && Elem(sym, elements).Some?) &&
      (r.Compound? <==> (|ts| > 1 || ts[0] != sym) && Elem(sym, elements).Some?) &&
      (r.NotChemical? <==> Elem(sym, elements).None?) &&
      (r.Element? ==> r.symbol == sym)
  {
    FindAllFormula(name, 0);
    ElreOnFirstToken(name);
  }

  // ---------------------------------------------------------------- examples

  lemma IronPercent(elements: map<string, Term>)
    requires "Fe" in elements
    ensures Recognise("Fe_%", elements) == Element("Fe", elements["Fe"], "_%")
  {
    var s := "Fe_%";
    assert LettersEnd(s, 0) == 2 by {
      assert Run(s, 2, IsAsciiLetter, 1) == 0;
    }
    assert TokenEnd(s, 0) == 2;
    assert FormulaEnd(s, 0) == 2 by {
      assert FormulaEnd(s, 2) == 2;
    }
    assert Tokens(s, 0) == ["Fe"] by {
      assert Tokens(s, 2) == [];
      assert s[0..2] == "Fe";
    }
    RecogniseElement(s, elements);
    assert FoldSymbol("Fe") == "Fe";
  }

  /** How the scanner cuts `Na2O`: the tokens `Na2` and `O`, led by the letters `Na`. */
  lemma SodiumOxideScan()
    ensures LettersEnd("Na2O", 0) == 2 && FormulaEnd("Na2O", 0) == 4
    ensures Tokens("Na2O", 0) == ["Na2", "O"]
  {
    var s := "Na2O";
    assert LettersEnd(s, 0) == 2 by {
      assert Run(s, 2, IsAsciiLetter, 1) == 0;
    }
    assert TokenEnd(s, 0) == 3 by {
      assert Run(s, 3, IsDigit, 1) == 0;
    }
    assert TokenEnd(s, 3) == 4;
    assert FormulaEnd(s, 0) == 4 by {
      assert FormulaEnd(s, 3) == 4;
    }
    assert Tokens(s, 4) == [];
    assert Tokens(s, 3) == [s[3..4]] + Tokens(s, 4);
    assert s[3..4] == "O" && s[0..3] == "Na2";
  }

  lemma SodiumOxide(elements: map<string, Term>)
    requires "Na" in elements
    ensures Recognise("Na2O", elements) == Compound("Na2O", "")
  {
    var s := "Na2O";
    SodiumOxideScan();
    assert s[..2] == "Na" && s[..4] == s;
    assert RestAfter(s, 4) == [];
    assert Elem("Na", elements).Some? by {
      assert FoldSymbol("Na") == "Na";
    }
    RecogniseElement(s, elements);
  }

  /** `SiO2`: one token whose letters `SiO` are no element, so the column is not chemical. */
  lemma Silica(elements: map<string, Term>)
    requires "Sio" !in elements
    ensures Recognise("SiO2", elements) == NotChemical("SiO2", "")
  {
    var s := "SiO2";
    assert LettersEnd(s, 0) == 3;
    assert TokenEnd(s, 0) == 4;
    assert FormulaEnd(s, 0) == 4;
    assert s[..3] == "SiO";
    RecogniseElement(s, elements);
    assert FoldSymbol("SiO") == "Sio";
  }

  lemma CyrillicName(elements: map<string, Term>)
    ensures Recognise("Назв", elements) == NoFormula
  {
  }
}
