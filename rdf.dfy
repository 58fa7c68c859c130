/**
 * The output graph: a growing set of triples over IRIs (a namespace and a local
 * name), blank nodes drawn from a counter, and literals.
 */
module Rdf {
  import opened Values

  /**
   * The vocabularies the importers write to, one per IRI prefix. The contents-terms
   * vocabulary of the importers (`PT`) and of the features converter (`CRUST`) is one
   * prefix, and so is schema.org (`SCHEMA`, and rdflib's `SDO`).
   */
  datatype Ns = PT | P | MT | RDF | RDFS | BIBO | SCHEMA | DCTERMS | WGS

  datatype Term =
    | Iri(ns: Ns, local: string)
    | Blank(id: nat)
      /** `Literal(v)` of a cell value. */
    | Lit(v: Value)
    | LangLit(text: string, lang: string)
    | BoolLit(b: bool)
      /** `Literal(x, datatype=XSD.decimal)`, `XSD.integer` and `XSD.string`. */
    | DecimalLit(d: Decimal)
    | IntegerLit(i: int)
    | StringLit(s: string)
      /** The literal of a latitude or longitude after degrees-minutes-seconds conversion of `raw`. */
    | DegreesLit(raw: Value)

  datatype Triple = Triple(s: Term, p: Term, o: Term)

  /** Every blank node in `t` was drawn before the counter reached `bound`. */
  predicate BlanksBelow(t: Triple, bound: nat) {
    (t.s.Blank? ==> t.s.id < bound) && (t.p.Blank? ==> t.p.id < bound) && (t.o.Blank? ==> t.o.id < bound)
  }

  const Type := Iri(RDF, "type")
  const Label := Iri(RDFS, "label")

  class Store {
    var triples: set<Triple>
    /** Number of blank nodes handed out so far. */
    var blanks: nat

    ghost predicate Valid()
      reads this
    {
      forall t | t in triples :: BlanksBelow(t, blanks)
    }

    constructor()
      ensures triples == {} && blanks == 0 && Valid()
    {
      triples := {};
      blanks := 0;
    }

    /** `g.add(t)`. */
    method Add(t: Triple)
      requires Valid() && BlanksBelow(t, blanks)
      modifies this
      ensures triples == old(triples) + {t} && blanks == old(blanks) && Valid()
    {
      triples := triples + {t};
    }

    /** Several `g.add` calls in a row. */
    method AddAll(ts: set<Triple>)
      requires Valid() && forall t | t in ts :: BlanksBelow(t, blanks)
      modifies this
      ensures triples == old(triples) + ts && blanks == old(blanks) && Valid()
    {
      triples := triples + ts;
    }

    /** `BNode()`: a node that occurs in no triple so far. */
    method NewBlank() returns (b: Term)
      requires Valid()
      modifies this
      ensures b == Blank(old(blanks)) && blanks == old(blanks) + 1
      ensures triples == old(triples) && Valid()
      ensures forall t | t in triples :: t.s != b && t.p != b && t.o != b
    {
      b := Blank(blanks);
      blanks := blanks + 1;
    }
  }
}
