/**
 * `alleninf/api.py`: probe search, and expression values with the well id
 * and donor name of every sample, over the REST service or the bundled HDF
 * tables. The HTTP request and the HDF read are parameters: a request
 * function from the full URL to the decoded response, and a read function
 * from (donor, where-clause) to that donor's table.
 */
module Api {
  import opened Wrappers
  import opened ApiQueries
  import opened ApiWells

  /** One entry of the probe search response, `{"id": ..., "name": ...}`. */
  datatype ProbeRecord = ProbeRecord(id: int, name: string)

  datatype ApiError =
    | NoProbes(gene: string)  // "Could not find any probes for <gene> gene"; the gene is the last one asked for
    | NameError               // the same failure with no gene asked for: the message names an unbound variable
    | IndexError              // the expression response lists fewer probes than were asked for
    | ValueError              // an HDF column that is not "well_id_" followed by an integer
    | ConcatenateValueError   // the ValueError of np.concatenate: no donors, or donors with different probe counts

  /** `{probe['id']: probe['name'] for probe in msg}`: a later id overwrites an earlier one. */
  function ProbeMap(msg: seq<ProbeRecord>): (d: map<int, string>)
    ensures forall k :: k in d <==> exists i :: 0 <= i < |msg| && msg[i].id == k
  {
    if msg == [] then map[]
    else
      var d := ProbeMap(msg[..|msg| - 1]);
      d[msg[|msg| - 1].id := msg[|msg| - 1].name]
  }

  /** The name kept for a probe id is that of the id's last occurrence. */
  lemma {:induction false} ProbeMapLastWins(msg: seq<ProbeRecord>, i: nat)
    requires i < |msg|
    requires forall j :: i < j < |msg| ==> msg[j].id != msg[i].id
    ensures msg[i].id in ProbeMap(msg) && ProbeMap(msg)[msg[i].id] == msg[i].name
  {
    if i < |msg| - 1 {
      var prefix := msg[..|msg| - 1];
      ProbeMapLastWins(prefix, i);
    }
  }

  /** Repeated ids collapse: the map has no more entries than the response has records. */
  lemma {:induction false} ProbeMapSize(msg: seq<ProbeRecord>)
    ensures |ProbeMap(msg)| <= |msg|
  {
    if msg != [] {
      ProbeMapSize(msg[..|msg| - 1]);
    }
  }

  /**
   * `get_probes_from_genes(genes)`: the probe search for the quoted gene
   * list, and its records as an id -> name map; an empty map is an error.
   */
  function GetProbesFromGenes(genes: OneOrMany<string>, request: string -> seq<ProbeRecord>)
    : (r: Result<map<int, string>, ApiError>)
    ensures r.Success? <==> request(ApiUrl + ProbeQuery(genes)) != []
    ensures r.Failure? && |AsList(genes)| > 0 ==> r.error == NoProbes(AsList(genes)[|AsList(genes)| - 1])
    ensures r.Failure? && |AsList(genes)| == 0 ==> r.error == NameError
  {
    var msg := request(ApiUrl + ProbeQuery(genes));
    var d := ProbeMap(msg);
    var names := AsList(genes);
    if d != map[] then Success(d)
    else
      assert msg != [] ==> msg[0].id in d;
      if |names| == 0 then Failure(NameError) else Failure(NoProbes(names[|names| - 1]))
  }

  /** Every record of the response is represented: its id maps to the name of the id's last record. */
  lemma ProbesFromGenesCoverResponse(genes: OneOrMany<string>, request: string -> seq<ProbeRecord>, i: nat)
    requires i < |request(ApiUrl + ProbeQuery(genes))|
    ensures var msg := request(ApiUrl + ProbeQuery(genes));
            var r := GetProbesFromGenes(genes, request);
            r.Success? && msg[i].id in r.value &&
            exists j :: i <= j < |msg| && msg[j].id == msg[i].id && r.value[msg[i].id] == msg[j].name
  {
    var msg := request(ApiUrl + ProbeQuery(genes));
    var j := LastOccurrence(msg, i);
    ProbeMapLastWins(msg, j);
  }

  lemma {:induction false} LastOccurrence(msg: seq<ProbeRecord>, i: nat) returns (j: nat)
    requires i < |msg|
    ensures i <= j < |msg| && msg[j].id == msg[i].id
    ensures forall k :: j < k < |msg| ==> msg[k].id != msg[j].id
    decreases |msg| - i
  {
    if exists k :: i < k < |msg| && msg[k].id == msg[i].id {
      var k :| i < k < |msg| && msg[k].id == msg[i].id;
      j := LastOccurrence(msg, k);
    } else {
      j := i;
    }
  }

  // ---------------------------------------------------------------------------
  // Expression values
  // ---------------------------------------------------------------------------

  /** Expression per probe (one row per probe, one value per sample), and the well and donor of each sample. */
  datatype Expression = Expression(values: seq<seq<real>>, wellIds: seq<int>, donorNames: seq<string>)

  /** Well ids and donor names describe the same samples, in the same order. */
  predicate Aligned(e: Expression)
  {
    |e.wellIds| == |e.donorNames|
  }

  /** One sample of the expression response: `sample["sample"]["well"]` and `sample["donor"]["name"]`. */
  datatype ApiSample = ApiSample(well: int, donor: string)

  /** `data["msg"]`: each probe's expression levels, and the samples. */
  datatype ExpressionResponse = ExpressionResponse(probes: seq<seq<real>>, samples: seq<ApiSample>)

  /** `get_expression_values_from_probe_ids_restapi(ids)`. */
  function ExpressionRest(ids: OneOrMany<string>, request: string -> ExpressionResponse): (r: Result<Expression, ApiError>)
    ensures var resp := request(ApiUrl + ExpressionQuery(ids));
            (r.Success? <==> |resp.probes| >= |AsList(ids)|) &&
            (r.Failure? ==> r.error == IndexError)
  {
    var resp := request(ApiUrl + ExpressionQuery(ids));
    var n := |AsList(ids)|;
    if |resp.probes| < n then Failure(IndexError)
    else Success(Expression(
      resp.probes[..n],
      seq(|resp.samples|, i requires 0 <= i < |resp.samples| => resp.samples[i].well),
      seq(|resp.samples|, i requires 0 <= i < |resp.samples| => resp.samples[i].donor)))
  }

  /** On the REST path there is one row per requested probe, and sample i of both lists is response sample i. */
  lemma RestAligned(ids: OneOrMany<string>, request: string -> ExpressionResponse)
    requires ExpressionRest(ids, request).Success?
    ensures var e := ExpressionRest(ids, request).value;
            var samples := request(ApiUrl + ExpressionQuery(ids)).samples;
            var resp := request(ApiUrl + ExpressionQuery(ids));
            Aligned(e) && e.values == resp.probes[..|AsList(ids)|] && |e.wellIds| == |samples| &&
            forall i :: 0 <= i < |samples| ==> ApiSample(e.wellIds[i], e.donorNames[i]) == samples[i]
  {
  }

  /** One donor's table as read with the where-clause: its column names and, per selected probe, a row of values. */
  datatype Frame = Frame(columns: seq<string>, rows: seq<seq<real>>)

  /** A table has one value per column in every row. */
  predicate WellFormed(f: Frame)
  {
    forall p :: 0 <= p < |f.rows| ==> |f.rows[p]| == |f.columns|
  }

  /** `[int(col[len("well_id_"):]) for col in columns]`, or `None` if any column does not parse. */
  function WellIdsOf(columns: seq<string>): (r: Option<seq<int>>)
    ensures r.Some? <==> forall i :: 0 <= i < |columns| ==> WellIdFromColumn(columns[i]).Some?
    ensures r.Some? ==> |r.value| == |columns| &&
                        forall i :: 0 <= i < |columns| ==> WellIdFromColumn(columns[i]) == Some(r.value[i])
  {
    if forall i :: 0 <= i < |columns| ==> WellIdFromColumn(columns[i]).Some? then
      Some(seq(|columns|, i requires 0 <= i < |columns| => WellIdFromColumn(columns[i]).value))
    else None
  }

  /** `[x] * k`. */
  function Repeat<T>(x: T, k: nat): (r: seq<T>)
    ensures |r| == k && forall i :: 0 <= i < k ==> r[i] == x
  {
    seq(k, _ => x)
  }

  /** The per-donor blocks, well ids and donor names gathered before concatenation. */
  datatype Gathered = Gathered(blocks: seq<seq<seq<real>>>, wellIds: seq<int>, donorNames: seq<string>)

  /** The HDF loop after its first `n` donors. */
  function GatherDonors(donors: seq<string>, where: string, read: (string, string) -> Frame, n: nat)
    : Result<Gathered, ApiError>
    requires n <= |donors|
  {
    if n == 0 then Success(Gathered([], [], []))
    else match GatherDonors(donors, where, read, n - 1)
      case Failure(e) => Failure(e)
      case Success(g) =>
        var f := read(donors[n - 1], where);
        match WellIdsOf(f.columns)
        case None => Failure(ValueError)
        case Some(ws) => Success(Gathered(g.blocks + [f.rows], g.wellIds + ws,
                                          g.donorNames + Repeat(donors[n - 1], |f.columns|)))
  }

  /** Row `p` of every block, side by side. */
  function JoinRow(blocks: seq<seq<seq<real>>>, p: nat): seq<real>
    requires forall b :: 0 <= b < |blocks| ==> p < |blocks[b]|
  {
    if blocks == [] then [] else JoinRow(blocks[..|blocks| - 1], p) + blocks[|blocks| - 1][p]
  }

  /** `np.concatenate(blocks, axis=1)`: no blocks, or blocks with different row counts, are an error. */
  function Concatenate(blocks: seq<seq<seq<real>>>): (r: Option<seq<seq<real>>>)
    ensures r.Some? <==> |blocks| > 0 && forall b :: 0 <= b < |blocks| ==> |blocks[b]| == |blocks[0]|
    ensures r.Some? ==> |r.value| == |blocks[0]|
  {
    if |blocks| == 0 || exists b :: 0 <= b < |blocks| && |blocks[b]| != |blocks[0]| then None
    else Some(seq(|blocks[0]|, p requires 0 <= p < |blocks[0]| => JoinRow(blocks, p)))
  }

  /** `get_expression_values_from_probe_ids_hdf(ids)` for the donor groups of the file. */
  function ExpressionHdf(donors: seq<string>, ids: seq<string>, read: (string, string) -> Frame)
    : Result<Expression, ApiError>
  {
    match GatherDonors(donors, WhereQuery(ids), read, |donors|)
    case Failure(e) => Failure(e)
    case Success(g) =>
      match Concatenate(g.blocks)
      case None => Failure(ConcatenateValueError)
      case Some(values) => Success(Expression(values, g.wellIds, g.donorNames))
  }

  /** The HDF loop over donors, accumulating the blocks, well ids and donor names. */
  method ExpressionValuesHdf(donors: seq<string>, ids: seq<string>, read: (string, string) -> Frame)
    returns (r: Result<Expression, ApiError>)
    ensures r == ExpressionHdf(donors, ids, read)
  {
    var where := WhereQuery(ids);
    var blocks: seq<seq<seq<real>>> := [];
    var wellIds: seq<int> := [];
    var donorNames: seq<string> := [];
    var i := 0;
    while i < |donors|
      invariant i <= |donors|
      invariant GatherDonors(donors, where, read, i) == Success(Gathered(blocks, wellIds, donorNames))
    {
      var df := read(donors[i], where);
      var ws := WellIdsOf(df.columns);
      if ws.None? {
        assert GatherDonors(donors, where, read, i + 1) == Failure(ValueError);
        GatherFailsFrom(donors, where, read, i + 1, |donors|);
        return Failure(ValueError);
      }
      wellIds := wellIds + ws.value;
      donorNames := donorNames + Repeat(donors[i], |df.columns|);
      blocks := blocks + [df.rows];
      i := i + 1;
      assert donors[..i][i - 1] == donors[i - 1];
    }
    var values := Concatenate(blocks);
    if values.None? {
      return Failure(ConcatenateValueError);
    }
    return Success(Expression(values.value, wellIds, donorNames));
  }

  /** Once a donor's columns fail to parse, every longer prefix of the loop fails the same way. */
  lemma {:induction false} GatherFailsFrom(donors: seq<string>, where: string, read: (string, string) -> Frame,
                                           n: nat, m: nat)
    requires n <= m <= |donors|
    requires GatherDonors(donors, where, read, n) == Failure(ValueError)
    ensures GatherDonors(donors, where, read, m) == Failure(ValueError)
    decreases m
  {
    if m > n {
      GatherFailsFrom(donors, where, read, n, m - 1);
    }
  }

  /** A loop that gets through `n` donors got through every shorter prefix of them too. */
  lemma {:induction false} GatherPrefix(donors: seq<string>, where: string, read: (string, string) -> Frame, m: nat, n: nat)
    requires m <= n <= |donors| && GatherDonors(donors, where, read, n).Success?
    ensures GatherDonors(donors, where, read, m).Success?
    decreases n
  {
    if m < n {
      GatherPrefix(donors, where, read, m, n - 1);
    }
  }

  /** The columns of the first `n` donors' tables, counted. */
  function ColumnCount(donors: seq<string>, where: string, read: (string, string) -> Frame, n: nat): nat
    requires n <= |donors|
  {
    if n == 0 then 0 else ColumnCount(donors, where, read, n - 1) + |read(donors[n - 1], where).columns|
  }

  /**
   * Sample `k` of the gathered state is column `c` of donor `b`'s table, where
   * `k` counts the columns of the donors before `b` and then `c`: donors in
   * loop order, each donor's columns in table order.
   */
  predicate FromDonor(donors: seq<string>, where: string, read: (string, string) -> Frame, g: Gathered, k: int)
    requires 0 <= k < |g.wellIds| && k < |g.donorNames|
  {
    exists b, c :: 0 <= b < |donors| && 0 <= c < |read(donors[b], where).columns| &&
      k == ColumnCount(donors, where, read, b) + c &&
      g.donorNames[k] == donors[b] && WellIdFromColumn(read(donors[b], where).columns[c]) == Some(g.wellIds[k])
  }

  /** After `n` donors: one block per donor, one well id and one donor name per column, in donor and column order. */
  lemma {:induction false} GatherAligned(donors: seq<string>, where: string, read: (string, string) -> Frame, n: nat)
    requires n <= |donors| && GatherDonors(donors, where, read, n).Success?
    ensures var g := GatherDonors(donors, where, read, n).value;
            |g.blocks| == n && |g.wellIds| == |g.donorNames| == ColumnCount(donors, where, read, n) &&
            forall k :: 0 <= k < |g.wellIds| ==> FromDonor(donors, where, read, g, k)
  {
    if n > 0 {
      GatherAligned(donors, where, read, n - 1);
      var g0 := GatherDonors(donors, where, read, n - 1).value;
      var g := GatherDonors(donors, where, read, n).value;
      var f := read(donors[n - 1], where);
      var ws := WellIdsOf(f.columns).value;
      forall k | 0 <= k < |g.wellIds|
        ensures FromDonor(donors, where, read, g, k)
      {
        if k < |g0.wellIds| {
          assert FromDonor(donors, where, read, g0, k);
          var b, c :| 0 <= b < |donors| && 0 <= c < |read(donors[b], where).columns| &&
            k == ColumnCount(donors, where, read, b) + c &&
            g0.donorNames[k] == donors[b] && WellIdFromColumn(read(donors[b], where).columns[c]) == Some(g0.wellIds[k]);
          assert g.donorNames[k] == g0.donorNames[k] && g.wellIds[k] == g0.wellIds[k];
        } else {
          var c := k - |g0.wellIds|;
          assert k == ColumnCount(donors, where, read, n - 1) + c;
          assert g.donorNames[k] == donors[n - 1];
          assert g.wellIds[k] == ws[c];
          assert WellIdFromColumn(f.columns[c]) == Some(g.wellIds[k]);
        }
      }
    }
  }

  /** Block `b` of the gathered state is the rows of donor `b`'s table. */
  lemma {:induction false} GatherBlocks(donors: seq<string>, where: string, read: (string, string) -> Frame, n: nat)
    requires n <= |donors| && GatherDonors(donors, where, read, n).Success?
    ensures var g := GatherDonors(donors, where, read, n).value;
            |g.blocks| == n && forall b :: 0 <= b < n ==> g.blocks[b] == read(donors[b], where).rows
  {
    if n > 0 {
      GatherBlocks(donors, where, read, n - 1);
    }
  }

  lemma {:induction false} GatherWidth(donors: seq<string>, where: string, read: (string, string) -> Frame, n: nat, p: nat)
    requires n <= |donors| && GatherDonors(donors, where, read, n).Success?
    requires forall b :: 0 <= b < |donors| ==> WellFormed(read(donors[b], where))
    requires forall b :: 0 <= b < n ==> p < |read(donors[b], where).rows|
    ensures var g := GatherDonors(donors, where, read, n).value;
            |g.blocks| == n && (forall b :: 0 <= b < n ==> g.blocks[b] == read(donors[b], where).rows) &&
            |g.wellIds| == ColumnCount(donors, where, read, n) &&
            |JoinRow(g.blocks, p)| == ColumnCount(donors, where, read, n)
  {
    GatherBlocks(donors, where, read, n);
    if n > 0 {
      var g0 := GatherDonors(donors, where, read, n - 1).value;
      var g := GatherDonors(donors, where, read, n).value;
      var f := read(donors[n - 1], where);
      GatherWidth(donors, where, read, n - 1, p);
      assert g.blocks == g0.blocks + [f.rows];
      assert g.blocks[..n - 1] == g0.blocks;
      assert WellFormed(f);
    }
  }

  /** In the joined row `p`, block `b`'s entry `c` sits after the entries of the blocks before it. */
  lemma {:induction false} JoinRowAt(blocks: seq<seq<seq<real>>>, p: nat, b: nat, c: nat)
    requires forall d :: 0 <= d < |blocks| ==> p < |blocks[d]|
    requires b < |blocks| && c < |blocks[b][p]|
    ensures var k := |JoinRow(blocks[..b], p)| + c;
            k < |JoinRow(blocks, p)| && JoinRow(blocks, p)[k] == blocks[b][p][c]
  {
    var last := |blocks| - 1;
    var front := blocks[..last];
    assert JoinRow(blocks, p) == JoinRow(front, p) + blocks[last][p];
    if b < last {
      JoinRowAt(front, p, b, c);
      assert front[..b] == blocks[..b];
    } else {
      assert blocks[..b] == front;
    }
  }

  /** In the joined row `p`, the position of donor `b`'s column `c` holds that table's value at row `p`, column `c`. */
  lemma GatherJoinRow(donors: seq<string>, where: string, read: (string, string) -> Frame,
                      n: nat, p: nat, b: nat, c: nat)
    requires n <= |donors| && GatherDonors(donors, where, read, n).Success?
    requires forall b :: 0 <= b < |donors| ==> WellFormed(read(donors[b], where))
    requires forall b :: 0 <= b < n ==> p < |read(donors[b], where).rows|
    requires b < n && c < |read(donors[b], where).columns|
    ensures var g := GatherDonors(donors, where, read, n).value;
            var f := read(donors[b], where);
            var k := ColumnCount(donors, where, read, b) + c;
            |g.blocks| == n && (forall d :: 0 <= d < n ==> g.blocks[d] == read(donors[d], where).rows) &&
            p < |f.rows| && c < |f.rows[p]| && k < |JoinRow(g.blocks, p)| &&
            JoinRow(g.blocks, p)[k] == f.rows[p][c]
  {
    GatherBlocks(donors, where, read, n);
    GatherPrefix(donors, where, read, b, n);
    GatherWidth(donors, where, read, b, p);
    var g := GatherDonors(donors, where, read, n).value;
    var gb := GatherDonors(donors, where, read, b).value;
    var f := read(donors[b], where);
    assert g.blocks[..b] == gb.blocks;
    assert WellFormed(f);
    JoinRowAt(g.blocks, p, b, c);
  }

  /**
   * On the HDF path, well ids and donor names are aligned, one per column of
   * the donors' tables, and sample `k` is named after the donor whose table
   * holds column `k` when the donors' columns are laid side by side in loop order.
   */
  lemma HdfAligned(donors: seq<string>, ids: seq<string>, read: (string, string) -> Frame)
    requires ExpressionHdf(donors, ids, read).Success?
    ensures var e := ExpressionHdf(donors, ids, read).value;
            var g := GatherDonors(donors, WhereQuery(ids), read, |donors|).value;
            Aligned(e) && |donors| > 0 && |e.wellIds| == ColumnCount(donors, WhereQuery(ids), read, |donors|) &&
            forall k :: 0 <= k < |e.wellIds| ==> FromDonor(donors, WhereQuery(ids), read, g, k)
  {
    GatherAligned(donors, WhereQuery(ids), read, |donors|);
  }

  lemma HdfRowsSpanAllWells(donors: seq<string>, ids: seq<string>, read: (string, string) -> Frame)
    requires ExpressionHdf(donors, ids, read).Success?
    requires forall b :: 0 <= b < |donors| ==> WellFormed(read(donors[b], WhereQuery(ids)))
    ensures var e := ExpressionHdf(donors, ids, read).value;
            forall p :: 0 <= p < |e.values| ==> |e.values[p]| == |e.wellIds|
  {
    var where := WhereQuery(ids);
    var g := GatherDonors(donors, where, read, |donors|).value;
    var e := ExpressionHdf(donors, ids, read).value;
    GatherAligned(donors, where, read, |donors|);
    GatherBlocks(donors, where, read, |donors|);
    forall p | 0 <= p < |e.values|
      ensures |e.values[p]| == |e.wellIds|
    {
      assert forall b :: 0 <= b < |donors| ==> |g.blocks[b]| == |g.blocks[0]|;
      GatherWidth(donors, where, read, |donors|, p);
    }
  }

  /**
   * For well-formed tables, the sample at donor `b`'s column `c` is one
   * sample throughout: its value in probe row `p` is that table's value, its
   * donor name is `b`'s, and its well id is read from that column's name.
   */
  lemma HdfSampleColumn(donors: seq<string>, ids: seq<string>, read: (string, string) -> Frame, p: nat, b: nat, c: nat)
    requires ExpressionHdf(donors, ids, read).Success?
    requires forall b :: 0 <= b < |donors| ==> WellFormed(read(donors[b], WhereQuery(ids)))
    requires p < |ExpressionHdf(donors, ids, read).value.values|
    requires b < |donors| && c < |read(donors[b], WhereQuery(ids)).columns|
    ensures var e := ExpressionHdf(donors, ids, read).value;
            var f := read(donors[b], WhereQuery(ids));
            var k := ColumnCount(donors, WhereQuery(ids), read, b) + c;
            p < |f.rows| && c < |f.rows[p]| && k < |e.wellIds| == |e.donorNames| && k < |e.values[p]| &&
            e.values[p][k] == f.rows[p][c] && e.donorNames[k] == donors[b] && WellIdFromColumn(f.columns[c]) == Some(e.wellIds[k])
  {
    var where := WhereQuery(ids);
    var g := GatherDonors(donors, where, read, |donors|).value;
    var e := ExpressionHdf(donors, ids, read).value;
    assert e == Expression(Concatenate(g.blocks).value, g.wellIds, g.donorNames);
    GatherBlocks(donors, where, read, |donors|);
    assert forall d :: 0 <= d < |donors| ==> |g.blocks[d]| == |g.blocks[0]|;
    GatherJoinRow(donors, where, read, |donors|, p, b, c);
    GatherSampleAt(donors, where, read, |donors|, b, c);
  }

  /** The gathered well id and donor name at donor `b`'s column `c` come from that column of that table. */
  lemma {:induction false} GatherSampleAt(donors: seq<string>, where: string, read: (string, string) -> Frame,
                                          n: nat, b: nat, c: nat)
    requires n <= |donors| && GatherDonors(donors, where, read, n).Success?
    requires b < n && c < |read(donors[b], where).columns|
    ensures var g := GatherDonors(donors, where, read, n).value;
            var k := ColumnCount(donors, where, read, b) + c;
            k < |g.wellIds| == |g.donorNames| && g.donorNames[k] == donors[b] &&
            WellIdFromColumn(read(donors[b], where).columns[c]) == Some(g.wellIds[k])
  {
    GatherAligned(donors, where, read, n);
    GatherAligned(donors, where, read, n - 1);
    var g0 := GatherDonors(donors, where, read, n - 1).value;
    var g := GatherDonors(donors, where, read, n).value;
    var k := ColumnCount(donors, where, read, b) + c;
    if b == n - 1 {
      var ws := WellIdsOf(read(donors[b], where).columns).value;
      assert g.wellIds == g0.wellIds + ws;
      assert g.wellIds[k] == ws[c];
    } else {
      GatherSampleAt(donors, where, read, n - 1, b, c);
      assert g.wellIds[k] == g0.wellIds[k];
    }
  }

  /** The donors' columns laid side by side do not overlap: a position belongs to one donor's column. */
  lemma {:induction false} ColumnPositionUnique(donors: seq<string>, where: string, read: (string, string) -> Frame,
                                                b: nat, c: nat, b': nat, c': nat)
    requires b < |donors| && c < |read(donors[b], where).columns|
    requires b' < |donors| && c' < |read(donors[b'], where).columns|
    requires ColumnCount(donors, where, read, b) + c == ColumnCount(donors, where, read, b') + c'
    ensures b == b' && c == c'
  {
    if b < b' {
      ColumnCountMonotone(donors, where, read, b + 1, b');
    } else if b' < b {
      ColumnCountMonotone(donors, where, read, b' + 1, b);
    }
  }

  lemma {:induction false} ColumnCountMonotone(donors: seq<string>, where: string, read: (string, string) -> Frame,
                                               m: nat, n: nat)
    requires m <= n <= |donors|
    ensures ColumnCount(donors, where, read, m) <= ColumnCount(donors, where, read, n)
    decreases n
  {
    if m < n {
      ColumnCountMonotone(donors, where, read, m, n - 1);
    }
  }

  /** Columns named by the table writer read back as the wells they were named for. */
  lemma WellIdsOfNamedColumns(ns: seq<int>)
    ensures WellIdsOf(seq(|ns|, i requires 0 <= i < |ns| => WellColumnName(ns[i]))) == Some(ns)
  {
    var cols := seq(|ns|, i requires 0 <= i < |ns| => WellColumnName(ns[i]));
    forall i | 0 <= i < |ns|
      ensures WellIdFromColumn(cols[i]) == Some(ns[i])
    {
      WellColumnRoundTrip(ns[i]);
    }
    var ws := WellIdsOf(cols).value;
    assert forall i :: 0 <= i < |ns| ==> ws[i] == ns[i];
    assert ws == ns;
  }

  /** `for probe_id in probe_ids` on the HDF path: a single string is iterated character by character. */
  function HdfIds(ids: OneOrMany<string>): (r: seq<string>)
    ensures ids.Many? ==> r == ids.items
    ensures ids.One? ==> |r| == |ids.item| && forall i :: 0 <= i < |r| ==> r[i] == [ids.item[i]]
  {
    match ids
    case Many(items) => items
    case One(s) => seq(|s|, i requires 0 <= i < |s| => [s[i]])
  }

  /** `get_expression_values_from_probe_ids(ids, restapi)`. */
  method GetExpressionValues(ids: OneOrMany<string>, restapi: bool, request: string -> ExpressionResponse,
                             donors: seq<string>, read: (string, string) -> Frame)
    returns (r: Result<Expression, ApiError>)
    ensures restapi ==> r == ExpressionRest(ids, request)
    ensures !restapi ==> r == ExpressionHdf(donors, HdfIds(ids), read)
  {
    if restapi {
      r := ExpressionRest(ids, request);
    } else {
      r := ExpressionValuesHdf(donors, HdfIds(ids), read);
    }
  }
}
