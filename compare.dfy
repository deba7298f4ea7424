/** The side-by-side comparison of src/routes/compare.js: parse up to three
    distinct publication numbers from `pub_nos` and build the `IN (...)`
    query with one named placeholder per number. */
module Compare {
  import opened Js
  import opened Text
  import opened Seqs

  /** The class `[\s,，;；]`. */
  const CompareDelims: set<char> := {',', '，', ';', '；'} + Spaces

  /** `String(req.query.pub_nos || '').trim()`: empty for an unset value or
      blank text, text without white space unchanged, and never white space
      at either end. */
  function RawIds(pubNos: Value): (r: string)
    ensures !Truthy(pubNos) ==> r == ""
    ensures pubNos.Str? ==> (r == "" <==> Blank(pubNos.s))
    ensures pubNos.Str? && (forall k :: 0 <= k < |pubNos.s| ==> pubNos.s[k] !in Spaces) ==> r == pubNos.s
    ensures r != "" ==> r[0] !in Spaces && r[|r| - 1] !in Spaces
  {
    Trim(ToStr(OrElse(pubNos, Str(""))))
  }


  /** No token at all exactly when every character is a delimiter. */
  lemma {:induction false} TokensEmpty(s: string, D: set<char>)
    ensures Tokens(s, D) == [] <==> forall i :: 0 <= i < |s| ==> s[i] in D
    decreases |s|
  {
    if s != [] && s[0] in D {
      TokensEmpty(s[1..], D);
      assert forall i :: 1 <= i < |s| ==> s[i] == s[1..][i - 1];
    }
  }

  /** The first three distinct tokens: no repeats, nothing else, and a
      token is left out only when three were already kept. */
  lemma FirstDistinct(toks: seq<string>)
    ensures var ids := Take(Dedup(toks), 3);
            && |ids| <= 3 && Distinct(ids)
            && (forall i :: 0 <= i < |ids| ==> ids[i] in toks)
            && (forall i :: 0 <= i < |toks| && toks[i] !in ids ==> |ids| == 3)
            && (ids == [] <==> toks == [])
  {
    var d := Dedup(toks);
    var ids := Take(d, 3);
    assert forall i :: 0 <= i < |ids| ==> ids[i] == d[i];
    forall i | 0 <= i < |toks| && toks[i] !in ids
      ensures |ids| == 3
    {
      var j :| 0 <= j < |d| && d[j] == toks[i];
      assert j >= |ids|;
    }
  }

  /** `Array.from(new Set(raw.split(/[\s,，;；]+/).filter(Boolean))).slice(0, 3)`:
      the distinct tokens of `raw` in first-occurrence order, at most three
      of them; none is empty or holds a delimiter; there are none exactly
      when `raw` is all delimiters. */
  function CompareIds(raw: string): (ids: seq<string>)
    ensures var toks := Tokens(raw, CompareDelims);
            && ids == Take(Dedup(toks), 3)
            && |ids| <= 3 && Distinct(ids)
            && (forall i :: 0 <= i < |ids| ==> ids[i] in toks && ids[i] != "" && NoneIn(ids[i], CompareDelims))
            && (forall i :: 0 <= i < |toks| && toks[i] !in ids ==> |ids| == 3)
            && (ids == [] <==> forall i :: 0 <= i < |raw| ==> raw[i] in CompareDelims)
  {
    SplitIsTokens(raw, CompareDelims);
    TokensEmpty(raw, CompareDelims);
    FirstDistinct(Tokens(raw, CompareDelims));
    Take(Dedup(NonEmpty(SplitRuns(raw, CompareDelims))), 3)
  }

  /** Earlier ids first occur earlier among the tokens. */
  lemma CompareIdsOrder(raw: string, i: nat, j: nat)
    requires i < j < |CompareIds(raw)|
    ensures var toks, ids := Tokens(raw, CompareDelims), CompareIds(raw);
            ids[i] in toks && ids[j] in toks && FirstIndex(toks, ids[i]) < FirstIndex(toks, ids[j])
  {
    DedupOrder(Tokens(raw, CompareDelims), i, j);
  }

  // ---------------------------------------------------------------------------
  // Placeholders and parameters

  /** `p${i}`. */
  function ParamName(i: nat): string {
    "p" + NatToString(i)
  }

  lemma ParamNameInjective(i: nat, j: nat)
    requires ParamName(i) == ParamName(j)
    ensures i == j
  {
    assert ParamName(i)[1..] == NatToString(i);
    assert ParamName(j)[1..] == NatToString(j);
    NatToStringInjective(i, j);
  }

  /** `ids.map((_, i) => `:p${i}`)`. */
  function PlaceholderList(n: nat): (r: seq<string>)
    ensures |r| == n
  {
    seq(n, i requires 0 <= i < n => ":" + ParamName(i))
  }

  /** `... .join(',')`. */
  function Placeholders(n: nat): string {
    Join(PlaceholderList(n), ",")
  }

  /** `ids.reduce((acc, v, i) => (acc[`p${i}`] = v, acc), {})`. */
  function Params(ids: seq<string>): (m: map<string, SqlParam>)
    ensures m.Keys == set i | 0 <= i < |ids| :: ParamName(i)
  {
    if ids == [] then map[]
    else
      var n := |ids| - 1;
      var m := Params(ids[..n]);
      assert m.Keys + {ParamName(n)} == set i | 0 <= i < |ids| :: ParamName(i);
      m[ParamName(n) := PStr(ids[n])]
  }

  /** Every id is bound under its own name, `p0` to the first and so on. */
  lemma {:induction false} ParamsLookup(ids: seq<string>, i: nat)
    requires i < |ids|
    ensures ParamName(i) in Params(ids) && Params(ids)[ParamName(i)] == PStr(ids[i])
  {
    var n := |ids| - 1;
    if i < n {
      ParamsLookup(ids[..n], i);
      if ParamName(n) == ParamName(i) {
        ParamNameInjective(n, i);
      }
    }
  }

  /** Every id is bound under its own name. */
  lemma ParamsAll(ids: seq<string>)
    ensures forall i :: 0 <= i < |ids| ==> Params(ids)[ParamName(i)] == PStr(ids[i])
  {
    forall i | 0 <= i < |ids|
      ensures Params(ids)[ParamName(i)] == PStr(ids[i])
    {
      ParamsLookup(ids, i);
    }
  }

  lemma PlaceholderShape(i: nat)
    ensures ":" + ParamName(i) != "" && NoneIn(":" + ParamName(i), {','})
  {
    var s := ":" + ParamName(i);
    assert s == ":p" + NatToString(i);
    forall k | 2 <= k < |s|
      ensures s[k] != ','
    {
      assert s[k] == NatToString(i)[k - 2];
    }
  }

  /** The placeholder list reads back as `n` names, the `i`-th naming the
      parameter `p{i}`. */
  lemma PlaceholdersRoundTrip(n: nat)
    ensures Tokens(Placeholders(n), {','}) == PlaceholderList(n)
    ensures forall i :: 0 <= i < n ==> PlaceholderList(n)[i] == ":" + ParamName(i)
  {
    var ps := PlaceholderList(n);
    forall i | 0 <= i < |ps|
      ensures ps[i] != "" && NoneIn(ps[i], {','})
    {
      PlaceholderShape(i);
    }
    TokensOfJoin(ps, ',', {','});
  }

  // ---------------------------------------------------------------------------
  // GET /api/compare

  datatype Reply =
    | Fail(error: string)
    | NoIds
    | Query(sql: string, params: map<string, SqlParam>)

  function CompareSql(placeholders: string): string {
    "\n      SELECT pub_no, app_no, title, abstract, app_date, pub_date,"
    + "\n             inventors, inventor_count, applicants_current, applicants_current_count,"
    + "\n             ipc, ipc_main, ipc_main_prefix, patent_type, grant_flag"
    + "\n      FROM patents\n      WHERE pub_no IN (" + placeholders + ")\n    "
  }

  /** The handler up to the database call. A blank `pub_nos` is refused;
      one made only of separators gives an empty list without a query;
      otherwise the query carries one to three ids, the `i`-th bound to the
      parameter `p{i}` and nothing else bound, and its `IN` list reads back
      as `:p0` to `:p{n-1}`. */
  function CompareRequest(pubNos: Value): (r: Reply)
    ensures r == Fail("pub_nos_required") <==> RawIds(pubNos) == ""
    ensures r.NoIds? <==>
              RawIds(pubNos) != "" && forall i :: 0 <= i < |RawIds(pubNos)| ==> RawIds(pubNos)[i] in CompareDelims
    ensures var ids := CompareIds(RawIds(pubNos));
            r.Query? ==>
              && 1 <= |ids| <= 3
              && r.params.Keys == (set i | 0 <= i < |ids| :: ParamName(i))
              && forall i :: 0 <= i < |ids| ==> r.params[ParamName(i)] == PStr(ids[i])
    ensures var n := |CompareIds(RawIds(pubNos))|;
            r.Query? ==>
              && r.sql == CompareSql(Placeholders(n))
              && Tokens(Placeholders(n), {','}) == PlaceholderList(n)
  {
    var raw := RawIds(pubNos);
    if raw == "" then Fail("pub_nos_required")
    else
      var ids := CompareIds(raw);
      if |ids| == 0 then NoIds
      else
        ParamsAll(ids);
        PlaceholdersRoundTrip(|ids|);
        Query(CompareSql(Placeholders(|ids|)), Params(ids))
  }
}
