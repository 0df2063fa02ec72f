/** The SPARQL 1.1 `SELECT DISTINCT` query sent to the endpoint: a fixed template
    with the search term and the ontology class spliced in as plain text. */
module Query {
  import opened Wrappers

  /** The template up to and including the opening quote of the `contains` literal. */
  const Head: string := "\n        PREFIX rdfs: <http://www.w3.org/2000/01/rdf-schema#>\n        SELECT DISTINCT ?url ?abstract\n        WHERE {\n            {\n            ?s a ?type ;\n                rdfs:label ?label ;\n                <http://dbpedia.org/ontology/abstract> ?abstract ;\n                foaf:isPrimaryTopicOf ?url .\n                FILTER (langMatches(lang(?abstract), \"en\"))\n                FILTER (contains(?label, \""

  /** From the closing quote of the `contains` literal up to the ontology namespace IRI. */
  const Middle: string := "\"))" + "\n                FILTER (?type IN (<http://dbpedia.org/ontology/"

  /** The rest of the template after the class name. */
  const Tail: string := ">))\n            }\n        }\n    "

  /** The query for a search term and an ontology class. Nothing is escaped:
      both strings appear verbatim at fixed places. */
  function Build(value: string, dbo: string): (q: string)
    ensures |q| == |Head| + |value| + |Middle| + |dbo| + |Tail|
    ensures q[..|Head|] == Head
    ensures q[|Head|..|Head| + |value|] == value
    ensures q[|Head| + |value|..|Head| + |value| + |Middle|] == Middle
    ensures q[|Head| + |value| + |Middle|..|q| - |Tail|] == dbo
    ensures q[|q| - |Tail|..] == Tail
  {
    Splice(Head, value, Middle, dbo, Tail);
    Head + value + Middle + dbo + Tail
  }

  lemma Splice(a: string, b: string, c: string, d: string, e: string)
    ensures var q := a + b + c + d + e;
      && |q| == |a| + |b| + |c| + |d| + |e|
      && q[..|a|] == a
      && q[|a|..|a| + |b|] == b
      && q[|a| + |b|..|a| + |b| + |c|] == c
      && q[|a| + |b| + |c|..|q| - |e|] == d
      && q[|q| - |e|..] == e
  {
  }

  /** Index of the first double quote in `s`, or `|s|` when there is none. */
  function FirstQuote(s: string): (k: nat)
    ensures k <= |s|
    ensures forall j :: 0 <= j < k ==> s[j] != '"'
    ensures k < |s| ==> s[k] == '"'
  {
    if s == [] || s[0] == '"' then 0 else 1 + FirstQuote(s[1..])
  }

  /** Recovers the search term and class from a query: the term is the text of
      the `contains` literal up to its first double quote. */
  function Parse(q: string): (r: Option<(string, string)>)
    ensures r.Some? ==> '"' !in r.value.0 && Build(r.value.0, r.value.1) == q
  {
    if |q| < |Head| + |Tail| || q[..|Head|] != Head || q[|q| - |Tail|..] != Tail then None
    else
      var inner := q[|Head|..|q| - |Tail|];
      Reassemble(q, Head, Tail);
      match SplitAtMiddle(inner)
      case None => None
      case Some(parts) =>
        Group(Head, parts.0, Middle, parts.1, Tail);
        Some(parts)
  }

  /** Splits the text between `Head` and `Tail` at its first double quote, which
      must open `Middle`. */
  function SplitAtMiddle(inner: string): (r: Option<(string, string)>)
    ensures r.Some? ==> '"' !in r.value.0 && inner == r.value.0 + Middle + r.value.1
  {
    var k := FirstQuote(inner);
    if k + |Middle| <= |inner| && inner[k..k + |Middle|] == Middle then
      Cut(inner, k, Middle);
      Some((inner[..k], inner[k + |Middle|..]))
    else None
  }

  lemma Reassemble(q: string, a: string, e: string)
    requires |a| + |e| <= |q| && q[..|a|] == a && q[|q| - |e|..] == e
    ensures q == a + q[|a|..|q| - |e|] + e
  {
  }

  lemma Cut(s: string, k: nat, m: string)
    requires k + |m| <= |s| && s[k..k + |m|] == m
    requires forall j :: 0 <= j < k ==> s[j] != '"'
    ensures '"' !in s[..k] && s == s[..k] + m + s[k + |m|..]
  {
  }

  lemma Group(a: string, b: string, c: string, d: string, e: string)
    ensures a + b + c + d + e == a + (b + c + d) + e
  {
  }

  lemma MiddleOpensWithQuote()
    ensures |Middle| > 0 && Middle[0] == '"'
  {
  }

  /** A search term without a double quote, and any class, survive the template:
      parsing the built query gives both back. */
  lemma RoundTrip(value: string, dbo: string)
    requires '"' !in value
    ensures Parse(Build(value, dbo)) == Some((value, dbo))
  {
    var q := Build(value, dbo);
    Group(Head, value, Middle, dbo, Tail);
    Between(q, Head, value + Middle + dbo, Tail);
    MiddleOpensWithQuote();
    SplitAtQuote(value, Middle, dbo);
  }

  /** The text between a known head and tail is what was put there. */
  lemma Between(q: string, a: string, b: string, e: string)
    requires q == a + b + e
    ensures q[|a|..|q| - |e|] == b
  {
  }

  /** The first quote of `v + m + d` opens `m` when `v` has none and `m` starts with one. */
  lemma SplitAtQuote(v: string, m: string, d: string)
    requires '"' !in v && |m| > 0 && m[0] == '"'
    ensures var s := v + m + d;
            && FirstQuote(s) == |v|
            && s[|v|..|v| + |m|] == m && s[..|v|] == v && s[|v| + |m|..] == d
  {
    var s := v + m + d;
    assert s[|v|] == '"';
  }

  /** Because nothing is escaped, a term that closes the literal can smuggle in
      text of its own: two different requests build the same query. */
  lemma SubstitutionIsAmbiguous()
    ensures Build("a", "b" + Middle + "Company") == Build("a" + Middle + "b", "Company")
  {
    Regroup("a", Middle, "b", "Company");
  }

  lemma Regroup(x: string, m: string, y: string, z: string)
    ensures Head + x + m + (y + m + z) + Tail == Head + (x + m + y) + m + z + Tail
  {
  }
}
