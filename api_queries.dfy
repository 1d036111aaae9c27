/**
 * The query strings of `alleninf/api.py`: gene names and probe ids are
 * single-quoted, comma-joined and spliced between fixed fragments of the
 * Allen Brain Atlas RMA query language.
 */
module ApiQueries {
  import opened Wrappers

  const ApiUrl: string := "http://api.brain-map.org/api/v2/data/query.json"

  /** An argument that is either one item or a list of items. */
  datatype OneOrMany<T> = One(item: T) | Many(items: seq<T>)

  /** `if not isinstance(x, list): x = [x]`. */
  function AsList<T>(x: OneOrMany<T>): (r: seq<T>)
    ensures x.One? ==> |r| == 1
    ensures x.Many? ==> |r| == |x.items|
  {
    match x
    case One(item) => [item]
    case Many(items) => items
  }

  /** `"'%s'" % s`. */
  function Quote(s: string): (r: string)
    ensures |r| == |s| + 2 && r[0] == '\'' && r[|r| - 1] == '\'' && r[1..|r| - 1] == s
  {
    "'" + s + "'"
  }

  /** `','.join(["'%s'" % x for x in xs])`. */
  function JoinQuoted(xs: seq<string>): (r: string)
    ensures xs == [] <==> r == ""
  {
    if |xs| == 0 then ""
    else if |xs| == 1 then Quote(xs[0])
    else Quote(xs[0]) + "," + JoinQuoted(xs[1..])
  }

  const ProbeCriteria: string := "?criteria=model::Probe"
  const ProbeTypeDna: string := ",rma::criteria,[probe_type$eq'DNA']"
  const HumanMicroarray: string := ",products[abbreviation$eq'HumanMA']"
  const GeneOpen: string := ",gene[acronym$eq"
  const ProbeOptions: string := ",rma::options[only$eq'probes.id','name']"
  const ExpressionOpen: string := "?criteria=service::human_microarray_expression[probes$in"
  const WhereOpen: string := "index in ["

  /** The fixed text in front of the gene list of a probe query. */
  function ProbePrefix(): string
  {
    ProbeCriteria + ProbeTypeDna + HumanMicroarray + GeneOpen
  }

  /** The probe search of `get_probes_from_genes`, appended to `ApiUrl`. */
  function ProbeQuery(genes: OneOrMany<string>): (q: string)
    ensures |q| > |ProbePrefix()| && q[..|ProbePrefix()|] == ProbePrefix()
    ensures |q| > |"]" + ProbeOptions| && q[|q| - |"]" + ProbeOptions|..] == "]" + ProbeOptions
  {
    ProbeCriteria + ProbeTypeDna + HumanMicroarray + GeneOpen + JoinQuoted(AsList(genes)) + "]" + ProbeOptions
  }

  /** The expression request of `get_expression_values_from_probe_ids_restapi`, appended to `ApiUrl`. */
  function ExpressionQuery(ids: OneOrMany<string>): (q: string)
    ensures |q| > |ExpressionOpen| && q[..|ExpressionOpen|] == ExpressionOpen && q[|q| - 1] == ']'
  {
    ExpressionOpen + JoinQuoted(AsList(ids)) + "]"
  }

  /** The `where` clause of the HDF read in `get_expression_values_from_probe_ids_hdf`. */
  function WhereQuery(ids: seq<string>): (q: string)
    ensures |q| > |WhereOpen| && q[..|WhereOpen|] == WhereOpen && q[|q| - 1] == ']'
  {
    WhereOpen + JoinQuoted(ids) + "]"
  }

  // ---------------------------------------------------------------------------
  // Reading a quoted list back: the partner of JoinQuoted.
  // ---------------------------------------------------------------------------

  /** The position of the first `'` in `s`, or `|s|`. */
  function QuoteAt(s: string): (k: nat)
    ensures k <= |s| && (k < |s| ==> s[k] == '\'')
    ensures forall i :: 0 <= i < k ==> s[i] != '\''
  {
    if s == [] || s[0] == '\'' then 0 else 1 + QuoteAt(s[1..])
  }

  /** One or more `'name'` items separated by commas, the whole of `s`. */
  function ParseItems(s: string): Option<seq<string>>
    decreases |s|
  {
    if |s| < 2 || s[0] != '\'' then None
    else
      var k := QuoteAt(s[1..]);
      if k == |s| - 1 then None
      else
        var rest := s[k + 2..];
        if rest == [] then Some([s[1..k + 1]])
        else if rest[0] != ',' then None
        else match ParseItems(rest[1..])
          case None => None
          case Some(tail) => Some([s[1..k + 1]] + tail)
  }

  /** A comma-joined list of single-quoted items, as `JoinQuoted` writes it. */
  function ParseQuotedList(s: string): Option<seq<string>>
  {
    if s == [] then Some([]) else ParseItems(s)
  }

  predicate NoQuote(s: string)
  {
    forall i :: 0 <= i < |s| ==> s[i] != '\''
  }

  lemma QuoteAtAfterName(name: string, tail: string)
    requires NoQuote(name)
    ensures QuoteAt(name + "'" + tail) == |name|
  {
    var s := name + "'" + tail;
    assert s[|name|] == '\'';
    assert forall i :: 0 <= i < |name| ==> s[i] == name[i];
  }

  /** Reading a joined list of quote-free names gives the names back. */
  lemma {:induction false} ParseJoinQuoted(xs: seq<string>)
    requires forall i :: 0 <= i < |xs| ==> NoQuote(xs[i])
    ensures ParseQuotedList(JoinQuoted(xs)) == Some(xs)
  {
    if |xs| > 0 {
      ParseItemsJoined(xs);
    }
  }

  /** A lone quoted name reads as that name. */
  lemma ParseOneItem(name: string)
    requires NoQuote(name)
    ensures ParseItems(Quote(name)) == Some([name])
  {
    var s := Quote(name);
    assert s[1..] == name + "'" + "";
    QuoteAtAfterName(name, "");
    assert s[1..|name| + 1] == name;
  }

  /** A quoted name, a comma and more: the name, then whatever the rest reads as. */
  lemma ParseCommaItem(name: string, tail: string)
    requires NoQuote(name)
    ensures ParseItems(Quote(name) + "," + tail) ==
            match ParseItems(tail)
            case None => None
            case Some(more) => Some([name] + more)
  {
    var s := Quote(name) + "," + tail;
    assert s[1..] == name + "'" + ("," + tail);
    QuoteAtAfterName(name, "," + tail);
    assert s[1..|name| + 1] == name;
    assert s[|name| + 2..] == "," + tail;
    assert ("," + tail)[1..] == tail;
  }

  /** Reading a joined list of two or more names: the first name, then the rest of the list. */
  lemma ParseJoinedStep(xs: seq<string>)
    requires |xs| > 1 && NoQuote(xs[0])
    requires ParseItems(JoinQuoted(xs[1..])) == Some(xs[1..])
    ensures ParseItems(JoinQuoted(xs)) == Some(xs)
  {
    ParseCommaItem(xs[0], JoinQuoted(xs[1..]));
    assert [xs[0]] + xs[1..] == xs;
  }

  lemma {:induction false} ParseItemsJoined(xs: seq<string>)
    requires |xs| > 0
    requires forall i :: 0 <= i < |xs| ==> NoQuote(xs[i])
    ensures ParseItems(JoinQuoted(xs)) == Some(xs)
  {
    if |xs| == 1 {
      ParseOneItem(xs[0]);
      assert xs == [xs[0]];
    } else {
      ParseItemsJoined(xs[1..]);
      ParseJoinedStep(xs);
    }
  }

  /** The gene list of a probe query, read back from the query text. */
  function ProbeQueryGenes(q: string): Option<seq<string>>
  {
    var pre := ProbePrefix();
    var post := "]" + ProbeOptions;
    if |q| < |pre| + |post| || q[..|pre|] != pre || q[|q| - |post|..] != post then None
    else ParseQuotedList(q[|pre|..|q| - |post|])
  }

  /**
   * The probe query carries exactly the requested gene names, each quoted
   * and comma-joined; a single name and a one-element list give the same query.
   */
  lemma ProbeQueryRoundTrip(genes: OneOrMany<string>)
    requires forall i :: 0 <= i < |AsList(genes)| ==> NoQuote(AsList(genes)[i])
    ensures ProbeQueryGenes(ProbeQuery(genes)) == Some(AsList(genes))
  {
    var q := ProbeQuery(genes);
    var pre := ProbePrefix();
    var post := "]" + ProbeOptions;
    var mid := JoinQuoted(AsList(genes));
    assert q == pre + mid + post;
    assert q[|pre|..|q| - |post|] == mid;
    ParseJoinQuoted(AsList(genes));
  }

  lemma SingleGeneAsList(g: string)
    ensures ProbeQuery(One(g)) == ProbeQuery(Many([g]))
    ensures ExpressionQuery(One(g)) == ExpressionQuery(Many([g]))
  {
  }

  /** The ids of an expression request, read back from the request text. */
  function ExpressionQueryIds(q: string): Option<seq<string>>
  {
    if |q| < |ExpressionOpen| + 1 || q[..|ExpressionOpen|] != ExpressionOpen || q[|q| - 1] != ']' then None
    else ParseQuotedList(q[|ExpressionOpen|..|q| - 1])
  }

  lemma ExpressionQueryRoundTrip(ids: OneOrMany<string>)
    requires forall i :: 0 <= i < |AsList(ids)| ==> NoQuote(AsList(ids)[i])
    ensures ExpressionQueryIds(ExpressionQuery(ids)) == Some(AsList(ids))
  {
    var q := ExpressionQuery(ids);
    var mid := JoinQuoted(AsList(ids));
    assert q[|ExpressionOpen|..|q| - 1] == mid;
    ParseJoinQuoted(AsList(ids));
  }

  /** The ids of an HDF `where` clause, read back from the clause. */
  function WhereQueryIds(q: string): Option<seq<string>>
  {
    if |q| < |WhereOpen| + 1 || q[..|WhereOpen|] != WhereOpen || q[|q| - 1] != ']' then None
    else ParseQuotedList(q[|WhereOpen|..|q| - 1])
  }

  lemma WhereQueryRoundTrip(ids: seq<string>)
    requires forall i :: 0 <= i < |ids| ==> NoQuote(ids[i])
    ensures WhereQueryIds(WhereQuery(ids)) == Some(ids)
  {
    var q := WhereQuery(ids);
    assert q[|WhereOpen|..|q| - 1] == JoinQuoted(ids);
    ParseJoinQuoted(ids);
  }

  /** The worked example: two probe ids in the `where` clause. */
  lemma WhereQueryExample()
    ensures WhereQuery(["1058685", "1058684"]) == "index in ['1058685','1058684']"
  {
  }
}
