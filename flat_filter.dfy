/** The flat filter of the keyword search (src/routes/search.js) and of the
    inventor collaboration graph (src/routes/inventor_graph.js): each
    non-empty query field adds one SQL condition and its named parameters.
    The two files carry the same builder; it is defined once here. */
module FlatFilter {
  import opened Js
  import opened Text

  /** The query-string fields; an absent field is the empty string. */
  datatype FlatQuery = FlatQuery(kw: string, yearStart: string, yearEnd: string,
                                 ptype: string, ipcPrefix: string, applicant: string)

  /** The six conditions, in the order the builder tests them. */
  datatype Filter = Kw | YearStart | YearEnd | Type | Ipc | App

  function Rank(f: Filter): nat {
    match f
    case Kw => 0
    case YearStart => 1
    case YearEnd => 2
    case Type => 3
    case Ipc => 4
    case App => 5
  }

  /** When a field takes part: `kw` must be non-blank after trimming, the
      others non-empty. */
  predicate IsSet(q: FlatQuery, f: Filter) {
    match f
    case Kw => !Blank(q.kw)
    case YearStart => q.yearStart != ""
    case YearEnd => q.yearEnd != ""
    case Type => q.ptype != ""
    case Ipc => q.ipcPrefix != ""
    case App => q.applicant != ""
  }

  /** The condition `f` when the query sets its field. */
  function Opt(q: FlatQuery, f: Filter): seq<Filter> {
    if IsSet(q, f) then [f] else []
  }

  /** The conditions a query switches on, in the builder's order. */
  function Active(q: FlatQuery): seq<Filter> {
    Opt(q, Kw) + Opt(q, YearStart) + Opt(q, YearEnd) + Opt(q, Type) + Opt(q, Ipc) + Opt(q, App)
  }

  predicate Ordered(r: seq<Filter>) {
    forall i, j :: 0 <= i < j < |r| ==> Rank(r[i]) < Rank(r[j])
  }

  lemma OrderedAppend(q: FlatQuery, r: seq<Filter>, f: Filter)
    requires Ordered(r) && forall i :: 0 <= i < |r| ==> Rank(r[i]) < Rank(f)
    ensures Ordered(r + Opt(q, f))
    ensures forall i :: 0 <= i < |r + Opt(q, f)| ==> Rank((r + Opt(q, f))[i]) <= Rank(f)
  {
  }

  /** Each condition is present exactly when its field is set, and the
      conditions keep the builder's fixed order (so none appears twice). */
  lemma ActiveConditions(q: FlatQuery)
    ensures forall f :: f in Active(q) <==> IsSet(q, f)
    ensures Ordered(Active(q))
  {
    ActiveOrdered(q);
    forall f
      ensures f in Active(q) <==> IsSet(q, f)
    {
      assert f in Opt(q, f) <==> IsSet(q, f);
    }
  }

  lemma ActiveOrdered(q: FlatQuery)
    ensures Ordered(Active(q))
  {
    var a1 := Opt(q, Kw);
    var a2 := a1 + Opt(q, YearStart);
    var a3 := a2 + Opt(q, YearEnd);
    var a4 := a3 + Opt(q, Type);
    var a5 := a4 + Opt(q, Ipc);
    OrderedAppend(q, [], Kw);
    assert a1 == [] + a1;
    OrderedAppend(q, a1, YearStart);
    OrderedAppend(q, a2, YearEnd);
    OrderedAppend(q, a3, Type);
    OrderedAppend(q, a4, Ipc);
    OrderedAppend(q, a5, App);
  }

  function FilterSql(f: Filter): string {
    match f
    case Kw =>
      "(MATCH(title, abstract) AGAINST(:kw IN NATURAL LANGUAGE MODE)"
      + " OR title LIKE CONCAT(\"%\", :kw_like, \"%\")"
      + " OR abstract LIKE CONCAT(\"%\", :kw_like, \"%\"))"
    case YearStart => "apply_year >= :ys"
    case YearEnd => "apply_year <= :ye"
    case Type => "(FIND_IN_SET(patent_type, :ptype) > 0)"
    case Ipc => "ipc_main_prefix LIKE CONCAT(:ipc, \"%\")"
    case App => "applicants_current LIKE CONCAT(\"%\", :app, \"%\")"
  }

  function FilterSqls(fs: seq<Filter>): (r: seq<string>)
    ensures |r| == |fs|
    ensures forall i :: 0 <= i < |fs| ==> r[i] == FilterSql(fs[i])
  {
    if fs == [] then [] else FilterSqls(fs[..|fs| - 1]) + [FilterSql(fs[|fs| - 1])]
  }

  /** `Number(s)` as a bound parameter: NaN when the text is not a number. */
  function NumberParam(s: string): (p: SqlParam)
    ensures p.PNum? <==> ToNumber(Str(s)).Some?
    ensures ToNumber(Str(s)).Some? ==> p == PNum(ToNumber(Str(s)).value)
    ensures ToNumber(Str(s)).None? ==> p == PNaN
  {
    match ToNumber(Str(s))
    case Some(n) => PNum(n)
    case None => PNaN
  }

  /** `whereSql`: empty without conditions, else `WHERE` and the conditions
      joined by ` AND `. */
  function WhereOf(fs: seq<Filter>): (w: string)
    ensures w == "" <==> fs == []
    ensures fs != [] ==> |w| >= 6 && w[..6] == "WHERE "
    ensures forall i :: 0 <= i < |fs| ==> Occurs(w, FilterSql(fs[i]))
  {
    if fs == [] then ""
    else
      var body := Join(FilterSqls(fs), " AND ");
      forall i | 0 <= i < |fs| ensures Occurs("WHERE " + body, FilterSql(fs[i])) {
        JoinHasPart(FilterSqls(fs), " AND ", i);
        OccursWithin("WHERE ", body, "", FilterSql(fs[i]));
        assert "WHERE " + body + "" == "WHERE " + body;
      }
      "WHERE " + body
  }

  /** The parameters one condition binds. */
  function Binding(q: FlatQuery, f: Filter): map<string, SqlParam> {
    match f
    case Kw => map["kw" := PStr(q.kw), "kw_like" := PStr(q.kw)]
    case YearStart => map["ys" := NumberParam(q.yearStart)]
    case YearEnd => map["ye" := NumberParam(q.yearEnd)]
    case Type => map["ptype" := PStr(q.ptype)]
    case Ipc => map["ipc" := PStr(q.ipcPrefix)]
    case App => map["app" := PStr(q.applicant)]
  }

  /** The parameters of the emitted conditions: every name each of them
      binds is bound. */
  function Bindings(q: FlatQuery, fs: seq<Filter>): (m: map<string, SqlParam>)
    ensures forall f :: f in fs ==> Names(f) <= m.Keys
  {
    if fs == [] then map[]
    else
      var n := |fs| - 1;
      assert fs == fs[..n] + [fs[n]];
      assert Binding(q, fs[n]).Keys == Names(fs[n]);
      Bindings(q, fs[..n]) + Binding(q, fs[n])
  }

  /** The parameter names condition `f` binds. */
  function Names(f: Filter): set<string> {
    match f
    case Kw => {"kw", "kw_like"}
    case YearStart => {"ys"}
    case YearEnd => {"ye"}
    case Type => {"ptype"}
    case Ipc => {"ipc"}
    case App => {"app"}
  }

  /** Distinct conditions bind distinct names, and none of them is a name
      the routes add afterwards (`lim`, `offset`, `ps`). */
  lemma NamesDisjoint(q: FlatQuery, f: Filter, g: Filter)
    ensures Binding(q, f).Keys == Names(f)
    ensures f != g ==> Names(f) !! Names(g)
    ensures "lim" !in Names(f) && "offset" !in Names(f) && "ps" !in Names(f)
  {
  }

  /** A condition in `fs` binds its names to its own values. */
  lemma {:induction false} BindingsValue(q: FlatQuery, fs: seq<Filter>, k: string, f: Filter)
    requires f in fs && k in Names(f)
    ensures k in Bindings(q, fs) && Bindings(q, fs)[k] == Binding(q, f)[k]
  {
    var n := |fs| - 1;
    var pre, last := fs[..n], fs[n];
    NamesDisjoint(q, f, last);
    if f != last {
      assert fs == pre + [last];
      BindingsValue(q, pre, k, f);
    }
  }

  /** Every bound name comes from some condition in `fs`. */
  lemma {:induction false} BindingsFrom(q: FlatQuery, fs: seq<Filter>, k: string)
    requires k in Bindings(q, fs)
    ensures exists f :: f in fs && k in Names(f)
  {
    var n := |fs| - 1;
    var pre, last := fs[..n], fs[n];
    NamesDisjoint(q, last, last);
    if k !in Names(last) {
      BindingsFrom(q, pre, k);
      var f :| f in pre && k in Names(f);
      assert f in fs;
    }
  }

  /** The parameters bound after the conditions `fs`: a name is bound exactly
      when some condition in `fs` binds it, and then to that condition's value. */
  lemma BindingsLookup(q: FlatQuery, fs: seq<Filter>, k: string)
    ensures k in Bindings(q, fs) <==> exists f :: f in fs && k in Names(f)
    ensures forall f :: f in fs && k in Names(f) ==> k in Bindings(q, fs) && Bindings(q, fs)[k] == Binding(q, f)[k]
  {
    if k in Bindings(q, fs) {
      BindingsFrom(q, fs, k);
    }
    forall f | f in fs && k in Names(f)
      ensures k in Bindings(q, fs) && Bindings(q, fs)[k] == Binding(q, f)[k]
    {
      BindingsValue(q, fs, k, f);
    }
  }

  /** The parameters of a query: each name is bound exactly when its field
      is set, `kw` and `kw_like` to the keyword, `ys`/`ye` to the numbers,
      the others to the field's text. */
  lemma ParamsOfQuery(q: FlatQuery, f: Filter, k: string)
    requires k in Names(f)
    ensures k in Bindings(q, Active(q)) <==> IsSet(q, f)
    ensures IsSet(q, f) ==> Bindings(q, Active(q))[k] == Binding(q, f)[k]
  {
    ActiveConditions(q);
    BindingsLookup(q, Active(q), k);
    forall g | g in Active(q) && k in Names(g)
      ensures g == f
    {
      if g != f {
        NamesDisjoint(q, f, g);
      }
    }
  }

  lemma FilterSqlsAppend(fs: seq<Filter>, gs: seq<Filter>)
    ensures FilterSqls(fs + gs) == FilterSqls(fs) + FilterSqls(gs)
  {
    var l, r := FilterSqls(fs + gs), FilterSqls(fs) + FilterSqls(gs);
    assert |l| == |r|;
    forall i | 0 <= i < |l|
      ensures l[i] == r[i]
    {
      if i < |fs| {
        assert (fs + gs)[i] == fs[i];
      } else {
        assert (fs + gs)[i] == gs[i - |fs|];
      }
    }
  }

  lemma BindingsSnoc(q: FlatQuery, fs: seq<Filter>, f: Filter)
    ensures Bindings(q, fs + [f]) == Bindings(q, fs) + Binding(q, f)
  {
    assert (fs + [f])[..|fs|] == fs;
  }

  /** The builder's clauses and parameters for the conditions `fs` pushed so far. */
  ghost predicate State(q: FlatQuery, fs: seq<Filter>, clauses: seq<string>, params: map<string, SqlParam>) {
    clauses == FilterSqls(fs) && params == Bindings(q, fs)
  }

  /** One step of the builder keeps its clauses and parameters those of the
      conditions pushed so far. */
  lemma StepState(q: FlatQuery, fs: seq<Filter>, f: Filter, clauses: seq<string>, params: map<string, SqlParam>,
                  clauses': seq<string>, params': map<string, SqlParam>)
    requires State(q, fs, clauses, params)
    requires clauses' == clauses + FilterSqls(Opt(q, f))
    requires params' == if IsSet(q, f) then params + Binding(q, f) else params
    ensures State(q, fs + Opt(q, f), clauses', params')
  {
    FilterSqlsAppend(fs, Opt(q, f));
    if IsSet(q, f) {
      BindingsSnoc(q, fs, f);
    } else {
      assert fs + Opt(q, f) == fs;
    }
  }

  /** One `if` of the builder: when the field of `f` is set, push its
      condition and bind its parameters. */
  method Push(q: FlatQuery, f: Filter, clauses: seq<string>, params: map<string, SqlParam>)
    returns (clauses': seq<string>, params': map<string, SqlParam>)
    ensures clauses' == clauses + FilterSqls(Opt(q, f))
    ensures params' == if IsSet(q, f) then params + Binding(q, f) else params
  {
    var on := match f
      case Kw => q.kw != "" && Trim(q.kw) != ""
      case YearStart => q.yearStart != ""
      case YearEnd => q.yearEnd != ""
      case Type => q.ptype != ""
      case Ipc => q.ipcPrefix != ""
      case App => q.applicant != "";
    clauses', params' := clauses, params;
    if on {
      clauses' := clauses + [FilterSql(f)];
      params' := params + Binding(q, f);
    }
    assert FilterSqls(Opt(q, f)) == if on then [FilterSql(f)] else [];
  }

  /** `buildWhereFromQuery` (and the same block inline in the search route):
      push one condition per set field, in a fixed order, and bind its
      parameters. */
  method BuildWhereFromQuery(q: FlatQuery) returns (whereSql: string, params: map<string, SqlParam>)
    ensures whereSql == WhereOf(Active(q))
    ensures whereSql == "" <==> Active(q) == []
    ensures params == Bindings(q, Active(q))
  {
    var clauses: seq<string> := [];
    params := map[];
    ghost var fs: seq<Filter> := [];
    ghost var clauses0, params0 := clauses, params;
    clauses, params := Push(q, Kw, clauses, params);
    StepState(q, fs, Kw, clauses0, params0, clauses, params);
    fs, clauses0, params0 := fs + Opt(q, Kw), clauses, params;
    clauses, params := Push(q, YearStart, clauses, params);
    StepState(q, fs, YearStart, clauses0, params0, clauses, params);
    fs, clauses0, params0 := fs + Opt(q, YearStart), clauses, params;
    clauses, params := Push(q, YearEnd, clauses, params);
    StepState(q, fs, YearEnd, clauses0, params0, clauses, params);
    fs, clauses0, params0 := fs + Opt(q, YearEnd), clauses, params;
    clauses, params := Push(q, Type, clauses, params);
    StepState(q, fs, Type, clauses0, params0, clauses, params);
    fs, clauses0, params0 := fs + Opt(q, Type), clauses, params;
    clauses, params := Push(q, Ipc, clauses, params);
    StepState(q, fs, Ipc, clauses0, params0, clauses, params);
    fs, clauses0, params0 := fs + Opt(q, Ipc), clauses, params;
    clauses, params := Push(q, App, clauses, params);
    StepState(q, fs, App, clauses0, params0, clauses, params);
    fs, clauses0, params0 := fs + Opt(q, App), clauses, params;
    assert fs == Active(q);
    whereSql := if |clauses| > 0 then "WHERE " + Join(clauses, " AND ") else "";
  }
}
