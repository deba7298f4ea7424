/** The keyword search of src/routes/search.js: the page window, the flat
    filter (shared with the inventor graph), the count and list queries,
    and the thumbnail each listed row gains from a checksum of its IPC
    prefix. */
module Search {
  import opened Js
  import opened Seqs
  import Paging
  import opened FlatFilter

  /** A result row: column name to value. */
  type Row = map<string, Value>

  /** `row.col`: `undefined` for a column the row does not have. */
  function Field(r: Row, col: string): Value {
    if col in r then r[col] else Undefined
  }

  // ---------------------------------------------------------------------------
  // Thumbnails

  /** The three thumbnail URLs, in the order the checksum indexes them. */
  const Thumbs: seq<string> := [
    "https://7072-prod-8g3u2rxd90ea9c7a-1378315181.tcb.qcloud.la/pic/junzi.png?sign=2e3a0d42225c1815ec69043d744d42c8&t=1757580086",
    "https://7072-prod-8g3u2rxd90ea9c7a-1378315181.tcb.qcloud.la/pic/turang.png?sign=7ca489a3dd7e11c6c5c8ebe252260a2f&t=1757580115",
    "https://7072-prod-8g3u2rxd90ea9c7a-1378315181.tcb.qcloud.la/pic/maisui.png?sign=0d0f99c4d2f8e065fbec2481f2b9a4ef&t=1757580123"
  ]

  /** `String(row.ipc_main_prefix || row.ipc_main || row.pub_no || '').toUpperCase()`. */
  function ThumbKey(r: Row): (k: string)
    ensures Truthy(Field(r, "ipc_main_prefix")) ==> k == Upper(ToStr(Field(r, "ipc_main_prefix")))
    ensures !Truthy(Field(r, "ipc_main_prefix")) && Truthy(Field(r, "ipc_main"))
            ==> k == Upper(ToStr(Field(r, "ipc_main")))
    ensures !Truthy(Field(r, "ipc_main_prefix")) && !Truthy(Field(r, "ipc_main")) && Truthy(Field(r, "pub_no"))
            ==> k == Upper(ToStr(Field(r, "pub_no")))
    ensures !Truthy(Field(r, "ipc_main_prefix")) && !Truthy(Field(r, "ipc_main")) && !Truthy(Field(r, "pub_no"))
            ==> k == ""
  {
    Upper(ToStr(OrElse(OrElse(OrElse(Field(r, "ipc_main_prefix"), Field(r, "ipc_main")), Field(r, "pub_no")), Str(""))))
  }

  /** The running checksum `sum = (sum + code) % 997` over `units`. */
  function ThumbSum(units: seq<int>): (sum: int)
    ensures 0 <= sum < 997
  {
    if units == [] then 0
    else (ThumbSum(units[..|units| - 1]) + units[|units| - 1]) % 997
  }

  /** The plain total of `units`. */
  function Sum(units: seq<int>): int {
    if units == [] then 0 else Sum(units[..|units| - 1]) + units[|units| - 1]
  }

  lemma ModAdd(a: int, x: int)
    ensures (a % 997 + x) % 997 == (a + x) % 997
  {
    var q := a / 997;
    assert a == 997 * q + a % 997;
    assert (a + x) - (a % 997 + x) == 997 * q;
  }

  /** Reducing after every step gives the total reduced once: the checksum
      is the sum of the code units modulo 997. */
  lemma {:induction false} ThumbSumIsSumMod(units: seq<int>)
    ensures ThumbSum(units) == Sum(units) % 997
  {
    if units != [] {
      var p := units[..|units| - 1];
      ThumbSumIsSumMod(p);
      ModAdd(Sum(p), units[|units| - 1]);
    }
  }

  /** The thumbnail of a row: one of the three, chosen by the sum of the
      key's UTF-16 code units modulo 997, then modulo 3. */
  function Thumb(r: Row): (url: string)
    ensures url in Thumbs
    ensures url == Thumbs[Sum(Utf16(ThumbKey(r))) % 997 % 3]
  {
    ThumbSumIsSumMod(Utf16(ThumbKey(r)));
    Thumbs[ThumbSum(Utf16(ThumbKey(r))) % 3]
  }

  /** `pickThumb(row)`. */
  method PickThumb(r: Row) returns (url: string)
    ensures url == Thumb(r)
    ensures url in Thumbs
  {
    var key := ThumbKey(r);
    var units := Utf16(key);
    var sum := 0;
    for i := 0 to |units|
      invariant 0 <= sum < 997
      invariant sum == ThumbSum(units[..i])
    {
      assert units[..i + 1][..i] == units[..i];
      sum := (sum + units[i]) % 997;
    }
    assert units[..|units|] == units;
    url := Thumbs[sum % |Thumbs|];
  }

  /** The thumbnail depends on no column but `ipc_main_prefix`, `ipc_main`
      and `pub_no`. */
  lemma ThumbIgnoresOtherColumns(r: Row, col: string, v: Value)
    requires col !in {"ipc_main_prefix", "ipc_main", "pub_no"}
    ensures Thumb(r[col := v]) == Thumb(r)
  {
    assert Field(r[col := v], "ipc_main_prefix") == Field(r, "ipc_main_prefix");
    assert Field(r[col := v], "ipc_main") == Field(r, "ipc_main");
    assert Field(r[col := v], "pub_no") == Field(r, "pub_no");
  }

  /** `{ ...r, thumb_url: pickThumb(r) }`. */
  function WithThumb(r: Row): Row {
    r["thumb_url" := Str(Thumb(r))]
  }

  /** A row keeps every column and value it had and gains `thumb_url`, one
      of the three thumbnails; doing it twice changes nothing more. */
  lemma WithThumbMeaning(r: Row)
    ensures WithThumb(r).Keys == r.Keys + {"thumb_url"}
    ensures forall col :: col in r && col != "thumb_url" ==> WithThumb(r)[col] == r[col]
    ensures WithThumb(r)["thumb_url"].Str? && WithThumb(r)["thumb_url"].s in Thumbs
    ensures WithThumb(WithThumb(r)) == WithThumb(r)
  {
    var u := Str(Thumb(r));
    ThumbIgnoresOtherColumns(r, "thumb_url", u);
    Update(r, "thumb_url", u);
  }

  lemma Update<K, V>(m: map<K, V>, k: K, v: V)
    ensures m[k := v].Keys == m.Keys + {k}
    ensures forall c :: c in m && c != k ==> m[k := v][c] == m[c]
    ensures m[k := v][k] == v && m[k := v][k := v] == m[k := v]
  {
  }

  /** `(listRows || []).map(r => ({ ...r, thumb_url: pickThumb(r) }))`:
      the rows in order, each with all its columns and its thumbnail. */
  function WithThumbs(rows: seq<Row>): (r: seq<Row>)
    ensures |r| == |rows|
    ensures forall i :: 0 <= i < |r| ==> r[i].Keys == rows[i].Keys + {"thumb_url"}
    ensures forall i, col :: 0 <= i < |r| && col in rows[i] && col != "thumb_url" ==> r[i][col] == rows[i][col]
    ensures forall i :: 0 <= i < |r| ==> r[i]["thumb_url"] == Str(Thumb(rows[i]))
  {
    seq(|rows|, i requires 0 <= i < |rows| => WithThumb(rows[i]))
  }

  // ---------------------------------------------------------------------------
  // GET /api/search

  function CountSql(whereSql: string): string {
    "SELECT COUNT(1) AS total FROM patents " + whereSql
  }

  function SelectSql(whereSql: string): string {
    "\n      SELECT pub_no, app_no, title,\n             LEFT(abstract, 120) AS abstract_snippet,"
    + "\n             apply_year, pub_date, applicants_current,\n             patent_type, grant_flag, ipc_main"
    + "\n      FROM patents\n      " + whereSql
    + "\n      ORDER BY pub_date DESC\n      LIMIT :offset, :pageSize\n    "
  }

  /** `countRows?.[0]?.total || 0`. */
  function Total(countRows: seq<Row>): (t: Value)
    ensures Truthy(t) || t == Num(0)
    ensures countRows != [] && Truthy(Field(countRows[0], "total")) ==> t == Field(countRows[0], "total")
  {
    if countRows == [] then Num(0) else OrElse(Field(countRows[0], "total"), Num(0))
  }

  /** The whole handler. `countRows` and `listRows` are what the two queries
      return. */
  method SearchRoute(q: FlatQuery, page: Value, pageSize: Value, countRows: seq<Row>, listRows: seq<Row>)
    returns (countSql: string, countParams: map<string, SqlParam>,
             selectSql: string, listParams: map<string, SqlParam>,
             total: Value, list: seq<Row>)
    ensures countSql == CountSql(WhereOf(Active(q)))
    ensures selectSql == SelectSql(WhereOf(Active(q)))
    ensures countParams == Bindings(q, Active(q))
    ensures var w := Paging.Paginate(page, pageSize);
            listParams == countParams + map["offset" := PNum(w.offset), "pageSize" := PNum(w.size)]
    ensures total == Total(countRows)
    ensures list == WithThumbs(listRows)
  {
    var w := Paging.Paginate(page, pageSize);
    var whereSql;
    whereSql, countParams := BuildWhereFromQuery(q);
    selectSql := SelectSql(whereSql);
    countSql := CountSql(whereSql);
    total := Total(countRows);
    listParams := countParams + map["offset" := PNum(w.offset), "pageSize" := PNum(w.size)];
    list := WithThumbs(listRows);
  }

  /** The list query binds the filter's parameters unchanged and adds the
      page window under names no filter uses. */
  lemma ListParamsMeaning(q: FlatQuery, w: Paging.Window)
    ensures var p := Bindings(q, Active(q));
            var l := p + map["offset" := PNum(w.offset), "pageSize" := PNum(w.size)];
            && "offset" !in p && "pageSize" !in p
            && l.Keys == p.Keys + {"offset", "pageSize"}
            && l["offset"] == PNum(w.offset) && l["pageSize"] == PNum(w.size)
            && forall k :: k in p ==> l[k] == p[k]
  {
    Unbound(q, "offset");
    Unbound(q, "pageSize");
  }

  /** A name no condition binds is never a parameter of the filter. */
  lemma Unbound(q: FlatQuery, k: string)
    requires k !in {"kw", "kw_like", "ys", "ye", "ptype", "ipc", "app"}
    ensures k !in Bindings(q, Active(q))
  {
    forall f: Filter
      ensures k !in Names(f)
    {
    }
    BindingsLookup(q, Active(q), k);
  }
}
