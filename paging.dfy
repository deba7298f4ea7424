/** The server-side clamps on numeric request parameters: pagination in
    src/routes/advanced.js and src/routes/search.js, the aggregation limits in
    src/routes/inventor_graph.js and the neighbour-graph size in src/routes/graph.js. */
module Paging {
  import opened Js

  /** What a clamp makes of a parsed parameter: the default `d` when nothing
      parsed or the number is 0 (both falsy), else the number pulled into
      `[lo, hi]`. */
  function Saturate(n: Option<int>, d: int, lo: int, hi: int): int {
    if n.None? || n.value == 0 then d
    else if n.value < lo then lo
    else if n.value > hi then hi
    else n.value
  }

  /** `Math.max(lo, Math.min(parseInt(String(raw), 10) || d, hi))`. */
  function Clamp(raw: Value, d: int, lo: int, hi: int): (r: int)
    requires lo <= hi
    ensures lo <= r <= hi
    ensures lo <= d <= hi ==> r == Saturate(ParseInt(ToStr(raw)), d, lo, hi)
  {
    Max(lo, Min(ParseIntOr(raw, d), hi))
  }

  /** The defaults the routes write as strings parse to their numbers. */
  lemma DefaultsParse()
    ensures ParseInt("1") == Some(1) && ParseInt("20") == Some(20) && ParseInt("50") == Some(50)
    ensures ParseInt("100") == Some(100) && ParseInt("5000") == Some(5000)
  {
    assert NatToString(1) == "1" && NatToString(2) == "2" && NatToString(5) == "5";
    assert NatToString(10) == "10" && NatToString(20) == "20" && NatToString(50) == "50";
    assert NatToString(100) == "100" && NatToString(500) == "500" && NatToString(5000) == "5000";
    ParseIntOfIntToString(1);
    ParseIntOfIntToString(20);
    ParseIntOfIntToString(50);
    ParseIntOfIntToString(100);
    ParseIntOfIntToString(5000);
  }

  /** The page window of one listing. */
  datatype Window = Window(page: int, size: int, offset: int)

  /** `Math.max(parseInt(page, 10) || 1, 1)`. */
  function PageNumber(page: Value): (p: int)
    ensures var n := ParseInt(ToStr(page)); p == if n.Some? && n.value >= 1 then n.value else 1
  {
    Max(ParseIntOr(page, 1), 1)
  }

  /** `Math.min(Math.max(parseInt(pageSize, 10) || 20, 1), 100)`. */
  function PageSize(pageSize: Value): (ps: int)
    ensures 1 <= ps <= 100
    ensures ps == Saturate(ParseInt(ToStr(pageSize)), 20, 1, 100)
  {
    Min(Max(ParseIntOr(pageSize, 20), 1), 100)
  }

  /** The number of rows before page `page` when every page holds `size` rows. */
  function Offset(page: int, size: int): (o: int)
    requires page >= 1 && size >= 1
    ensures o >= 0
  {
    (page - 1) * size
  }

  /** The page number, the page size and `offset = (p - 1) * ps`. */
  function Paginate(page: Value, pageSize: Value): (w: Window)
    ensures w.page == PageNumber(page) && w.size == PageSize(pageSize)
    ensures w.offset == Offset(w.page, w.size)
  {
    var p := PageNumber(page);
    var ps := PageSize(pageSize);

    Window(p, ps, Offset(p, ps))
  }
}
