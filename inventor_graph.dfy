/** The inventor collaboration graph of src/routes/inventor_graph.js: every
    sampled record's inventor list is split and cleaned; each inventor counts
    the records naming it, each unordered pair of inventors counts the records
    naming both; the most frequent inventors become nodes and the pairs among
    them that are frequent enough become edges. */
module InventorGraph {
  import opened Js
  import opened Text
  import opened Seqs
  import Paging
  import FlatFilter

  // ---------------------------------------------------------------------------
  // splitToArray and clean

  /** The class `[\|;,，；、\s]`. */
  const InventorDelims: set<char> := {'|', ';', ',', '，', '；', '、'} + Spaces

  /** `splitToArray(text, limit)`: nothing for a falsy value, else the trimmed
      non-empty pieces between delimiter runs, at most `limit` of them. */
  function SplitToArray(text: Value, limit: int): (r: seq<string>)
    ensures !Truthy(text) ==> r == []
    ensures Truthy(text) ==> r == Limit(Tokens(ToStr(text), InventorDelims), limit)
    ensures limit > 0 ==> |r| <= limit
    ensures forall i :: 0 <= i < |r| ==> r[i] != "" && NoneIn(r[i], InventorDelims)
  {
    if !Truthy(text) then []
    else
      SplitTrimFilterIsTokens(ToStr(text), InventorDelims);
      Limit(SplitTrimFilter(ToStr(text), InventorDelims), limit)
  }

  /** The list separators `clean` turns into a space: `[，；;、]`. */
  const ListSeps: set<char> := {'，', '；', ';', '、'}

  /** The punctuation a name may not consist of only: `[._-]`. */
  const Punct: set<char> := {'.', '_', '-'}

  predicate OnlyPunct(s: string) {
    forall i :: 0 <= i < |s| ==> s[i] in Punct
  }

  /** The replacements of `clean` before its checks: drop `|` runs, turn
      separator runs and white-space runs into one space, trim. */
  function Normalize(name: string): string {
    var s1 := ReplaceRuns(name, {'|'}, "");
    var s2 := ReplaceRuns(s1, ListSeps, " ");
    var s3 := ReplaceRuns(s2, Spaces, " ");
    Trim(s3)
  }

  /** `clean(name)`: the normalized name, or `''` when the name is empty,
      when the normalized name is one UTF-16 code unit long or shorter
      (`s.length <= 1`), or when it is punctuation alone. */
  function CleanName(name: string): (r: string)
    ensures r == "" || WellFormed(r)
    ensures r != "" ==> r == Normalize(name)
  {
    if name == "" then ""
    else
      var s := Normalize(name);
      NormalizeShape(name);
      if s == "" || |Utf16(s)| <= 1 then ""
      else if OnlyPunct(s) then ""
      else s
  }

  /** No `|` and no list separator; every white space is a plain space and
      no two of them touch. */
  predicate Spaced(s: string) {
    && NoneIn(s, {'|'} + ListSeps)
    && (forall i :: 0 <= i < |s| ==> s[i] in Spaces ==> s[i] == ' ')
    && (forall i :: 0 <= i < |s| - 1 ==> !(s[i] in Spaces && s[i + 1] in Spaces))
  }

  /** A well-formed name: two UTF-16 code units or more, spaced as above, no
      space at either end, and not punctuation alone. */
  predicate WellFormed(s: string) {
    s != [] && |Utf16(s)| >= 2 && Spaced(s) && s[0] !in Spaces && s[|s| - 1] !in Spaces && !OnlyPunct(s)
  }

  /** The replacements leave a spaced string. */
  lemma ReplacedShape(name: string)
    ensures Spaced(ReplaceRuns(ReplaceRuns(ReplaceRuns(name, {'|'}, ""), ListSeps, " "), Spaces, " "))
  {
    var s1 := ReplaceRuns(name, {'|'}, "");
    var s2 := ReplaceRuns(s1, ListSeps, " ");
    ReplaceRunsKeepsOut(s1, ListSeps, " ", {'|'});
    assert NoneIn(s2, {'|'} + ListSeps);
    ReplaceRunsKeepsOut(s2, Spaces, " ", {'|'} + ListSeps);
  }

  /** Trimming a spaced string keeps it spaced and leaves no space at its ends. */
  lemma TrimShape(s: string)
    requires Spaced(s)
    ensures Spaced(Trim(s))
    ensures Trim(s) != "" ==> Trim(s)[0] !in Spaces && Trim(s)[|Trim(s)| - 1] !in Spaces
  {
    var r := Trim(s);
    var t := TrimStartIndex(s);
    forall i | 0 <= i < |r|
      ensures r[i] !in {'|'} + ListSeps
      ensures r[i] in Spaces ==> r[i] == ' '
    {
      assert r[i] == s[t + i];
    }
    forall i | 0 <= i < |r| - 1
      ensures !(r[i] in Spaces && r[i + 1] in Spaces)
    {
      assert r[i] == s[t + i] && r[i + 1] == s[t + i + 1];
    }
  }

  /** The replacements and the trim leave a spaced string with no space at
      either end. */
  lemma NormalizeShape(name: string)
    ensures Spaced(Normalize(name))
    ensures Normalize(name) != "" ==> Normalize(name)[0] !in Spaces && Normalize(name)[|Normalize(name)| - 1] !in Spaces
  {
    ReplacedShape(name);
    TrimShape(ReplaceRuns(ReplaceRuns(ReplaceRuns(name, {'|'}, ""), ListSeps, " "), Spaces, " "));
  }

  /** On a piece of `splitToArray`, which holds no delimiter, `clean` changes
      nothing: it only rejects pieces of one code unit or fewer and
      punctuation-only pieces. A single character outside the basic plane is
      two code units and is kept. */
  lemma CleanNameOfPiece(name: string)
    requires NoneIn(name, InventorDelims)
    ensures CleanName(name) == if |Utf16(name)| <= 1 || OnlyPunct(name) then "" else name
    ensures |name| == 1 && name[0] as int >= 0x1_0000 ==> CleanName(name) == name
  {
    NormalizePiece(name);
    Utf16Short(name);
  }

  /** A delimiter-free piece has nothing to replace and nothing to trim. */
  lemma NormalizePiece(name: string)
    requires NoneIn(name, InventorDelims)
    ensures Normalize(name) == name
  {
    ReplaceRunsIdentity(name, {'|'}, "");
    ReplaceRunsIdentity(name, ListSeps, " ");
    ReplaceRunsIdentity(name, Spaces, " ");
  }

  /** `.map(clean).filter(Boolean)`. */
  function CleanAll(ps: seq<string>): (r: seq<string>)
    ensures forall i :: 0 <= i < |r| ==> WellFormed(r[i])
  {
    if ps == [] then []
    else
      var c := CleanName(ps[0]);
      (if c == "" then [] else [c]) + CleanAll(ps[1..])
  }

  // ---------------------------------------------------------------------------
  // Records

  /** A sampled row: `pub_no` and the raw `inventors` text. */
  datatype Row = Row(pubNo: Value, inventors: Value)

  /** `String(r.pub_no)` when `r.pub_no` is truthy. */
  function RowPub(r: Row): Option<string> {
    if Truthy(r.pubNo) then Some(ToStr(r.pubNo)) else None
  }

  /** The numbers an optional `pub_no` offers: none or one. */
  function Offered(pub: Option<string>): seq<string> {
    match pub
    case None => []
    case Some(x) => [x]
  }

  /** `splitToArray(r.inventors, 20).map(clean).filter(Boolean)`. */
  function Inventors(r: Row): seq<string> {
    CleanAll(SplitToArray(r.inventors, 20))
  }

  /** A record takes part when its cleaned list, before removing repeats,
      has two names or more. */
  predicate Qualifies(r: Row) {
    |Inventors(r)| >= 2
  }

  /** `Array.from(new Set(invs))`. */
  function Uniq(r: Row): (u: seq<string>)
    ensures Distinct(u)
    ensures forall p :: p in u <==> p in Inventors(r)
  {
    Dedup(Inventors(r))
  }

  /** The number of taking-part records that name `p`. */
  function RecordsWith(rows: seq<Row>, p: string): nat {
    if rows == [] then 0
    else
      var r := rows[|rows| - 1];
      RecordsWith(rows[..|rows| - 1], p) + if Qualifies(r) && p in Inventors(r) then 1 else 0
  }

  /** The number of taking-part records that name both `a` and `b`. */
  function RecordsWithBoth(rows: seq<Row>, a: string, b: string): nat {
    if rows == [] then 0
    else
      var r := rows[|rows| - 1];
      RecordsWithBoth(rows[..|rows| - 1], a, b)
      + if Qualifies(r) && a in Inventors(r) && b in Inventors(r) then 1 else 0
  }

  /** A pair is never named by more records than either of its members. */
  lemma {:induction false} RecordsWithBothAtMost(rows: seq<Row>, a: string, b: string)
    ensures RecordsWithBoth(rows, a, b) <= RecordsWith(rows, a)
    ensures RecordsWithBoth(rows, a, b) <= RecordsWith(rows, b)
  {
    if rows != [] {
      RecordsWithBothAtMost(rows[..|rows| - 1], a, b);
    }
  }

  // ---------------------------------------------------------------------------
  // Pair keys

  /** The canonical key of an unordered pair: the smaller name, `|||`, the
      larger name. */
  function PairKey(a: string, b: string): (k: string)
    ensures Less(a, b) ==> k == a + "|||" + b
    ensures Less(b, a) ==> k == b + "|||" + a
  {
    LessTotal(a, b);
    if Less(a, b) then a + "|||" + b else b + "|||" + a
  }

  /** Both orders of a pair give the same key. */
  lemma PairKeySymmetric(a: string, b: string)
    ensures PairKey(a, b) == PairKey(b, a)
  {
    LessTotal(a, b);
  }

  predicate NoBar(s: string) {
    NoneIn(s, {'|'})
  }

  /** `key.split('|||')` recovers the pair of names without `|`, the
      smaller first. */
  lemma PairKeySplit(a: string, b: string)
    requires NoBar(a) && NoBar(b)
    ensures SplitOn(PairKey(a, b), "|||") == if Less(a, b) then [a, b] else [b, a]
  {
    if Less(a, b) {
      SplitOnPair(a, b, "|||");
    } else {
      SplitOnPair(b, a, "|||");
    }
  }

  /** Appending one element adds one occurrence of it and no other. */
  lemma MultisetSnoc(s: seq<string>, x: string, k: string)
    ensures multiset(s + [x])[k] == multiset(s)[k] + if x == k then 1 else 0
  {
  }

  /** Two pairs of names without `|` share a key only when they are the
      same unordered pair. */
  lemma PairKeyInjective(a: string, b: string, c: string, d: string)
    requires NoBar(a) && NoBar(b) && NoBar(c) && NoBar(d)
    requires PairKey(a, b) == PairKey(c, d)
    ensures (a == c && b == d) || (a == d && b == c)
  {
    PairKeySplit(a, b);
    PairKeySplit(c, d);
  }

  // ---------------------------------------------------------------------------
  // The streams of increments

  /** The keys the inner loop `for j` adds for `u[i]`, for `j` below `hi`. */
  function PairsFrom(u: seq<string>, i: nat, hi: nat): seq<string>
    requires i < |u| && hi <= |u|
    decreases hi
  {
    if hi <= i + 1 then [] else PairsFrom(u, i, hi - 1) + [PairKey(u[i], u[hi - 1])]
  }

  /** The keys the nested loops add for `u[0..n)` as first member. */
  function AllPairs(u: seq<string>, n: nat): seq<string>
    requires n <= |u|
  {
    if n == 0 then [] else AllPairs(u, n - 1) + PairsFrom(u, n - 1, |u|)
  }

  /** The keys one record adds, in the order of the nested loops. */
  function RowPairs(r: Row): seq<string> {
    if Qualifies(r) then AllPairs(Uniq(r), |Uniq(r)|) else []
  }

  /** Every key the records add to `edgeCount`, in order. */
  function PairStream(rows: seq<Row>): seq<string> {
    if rows == [] then [] else PairStream(rows[..|rows| - 1]) + RowPairs(rows[|rows| - 1])
  }

  /** Every inventor the records add to `nodeData`, in order. */
  function NameStream(rows: seq<Row>): seq<string> {
    if rows == [] then []
    else
      var r := rows[|rows| - 1];
      NameStream(rows[..|rows| - 1]) + if Qualifies(r) then Uniq(r) else []
  }

  /** The publication numbers offered to the `pubs` set of `p`, in order. */
  function PubStream(rows: seq<Row>, p: string): seq<string> {
    if rows == [] then []
    else
      var r := rows[|rows| - 1];
      PubStream(rows[..|rows| - 1], p)
      + if Qualifies(r) && p in Inventors(r) then Offered(RowPub(r)) else []
  }

  /** `x` sits at some position of `u[lo..hi)`. */
  predicate InRange(u: seq<string>, x: string, lo: nat, hi: nat)
    decreases hi
  {
    lo < hi && hi <= |u| && (u[hi - 1] == x || InRange(u, x, lo, hi - 1))
  }

  /** A position where `x` sits. */
  lemma {:induction false} InRangeWitness(u: seq<string>, x: string, lo: nat, hi: nat) returns (m: nat)
    requires InRange(u, x, lo, hi)
    ensures lo <= m < hi <= |u| && u[m] == x
    decreases hi
  {
    if u[hi - 1] == x {
      m := hi - 1;
    } else {
      m := InRangeWitness(u, x, lo, hi - 1);
    }
  }

  /** A position where `x` sits puts it in every range around that position. */
  lemma {:induction false} InRangeOf(u: seq<string>, x: string, lo: nat, hi: nat, m: nat)
    requires lo <= m < hi <= |u| && u[m] == x
    ensures InRange(u, x, lo, hi)
    decreases hi
  {
    if m < hi - 1 {
      InRangeOf(u, x, lo, hi - 1, m);
    }
  }

  /** The inner loop adds the key of `{a, b}` once when `u[i]` is one of
      them and the other follows it below `hi`, else never. */
  lemma {:induction false} PairsFromCount(u: seq<string>, i: nat, hi: nat, a: string, b: string)
    requires i < |u| && hi <= |u| && Distinct(u)
    requires forall m :: 0 <= m < |u| ==> NoBar(u[m])
    requires NoBar(a) && NoBar(b) && a != b
    ensures multiset(PairsFrom(u, i, hi))[PairKey(a, b)]
            == if (u[i] == a && InRange(u, b, i + 1, hi)) || (u[i] == b && InRange(u, a, i + 1, hi)) then 1 else 0
    decreases hi
  {
    if hi > i + 1 {
      PairsFromCount(u, i, hi - 1, a, b);
      var k := PairKey(a, b);
      LastPairCount(u, i, hi, a, b);
      LastOnce(u, i, hi, a);
      LastOnce(u, i, hi, b);
      assert InRange(u, a, i + 1, hi) <==> InRange(u, a, i + 1, hi - 1) || u[hi - 1] == a;
      assert InRange(u, b, i + 1, hi) <==> InRange(u, b, i + 1, hi - 1) || u[hi - 1] == b;
      FromStep(multiset(PairsFrom(u, i, hi - 1))[k], (u[i] == a && u[hi - 1] == b) || (u[i] == b && u[hi - 1] == a),
               u[i] == a, u[i] == b,
               InRange(u, a, i + 1, hi - 1), InRange(u, b, i + 1, hi - 1), u[hi - 1] == a, u[hi - 1] == b,
               InRange(u, a, i + 1, hi), InRange(u, b, i + 1, hi));
    }
  }

  /** The last pair of a range adds one to the count of a key exactly when
      it is that key's pair, in either order. */
  lemma LastPairCount(u: seq<string>, i: nat, hi: nat, a: string, b: string)
    requires i + 1 < hi <= |u|
    requires forall m :: 0 <= m < |u| ==> NoBar(u[m])
    requires NoBar(a) && NoBar(b)
    ensures multiset(PairsFrom(u, i, hi))[PairKey(a, b)]
            == multiset(PairsFrom(u, i, hi - 1))[PairKey(a, b)]
               + if (u[i] == a && u[hi - 1] == b) || (u[i] == b && u[hi - 1] == a) then 1 else 0
  {
    MultisetSnoc(PairsFrom(u, i, hi - 1), PairKey(u[i], u[hi - 1]), PairKey(a, b));
    KeyHit(u[i], u[hi - 1], a, b);
  }

  /** Two pairs of names without `|` share a key exactly when they are the
      same unordered pair. */
  lemma KeyHit(c: string, d: string, a: string, b: string)
    requires NoBar(a) && NoBar(b) && NoBar(c) && NoBar(d)
    ensures PairKey(c, d) == PairKey(a, b) <==> (c == a && d == b) || (c == b && d == a)
  {
    if PairKey(c, d) == PairKey(a, b) {
      PairKeyInjective(c, d, a, b);
    }
    PairKeySymmetric(a, b);
  }

  /** Without repeats, the last position of a range holds no element found
      earlier in it, nor the element at `i`. */
  lemma LastOnce(u: seq<string>, i: nat, hi: nat, x: string)
    requires i + 1 < hi <= |u| && Distinct(u)
    ensures u[hi - 1] == x ==> !InRange(u, x, i + 1, hi - 1) && u[i] != x
  {
    if InRange(u, x, i + 1, hi - 1) {
      var m := InRangeWitness(u, x, i + 1, hi - 1);
    }
  }

  /** The bookkeeping of one step of PairsFromCount, on truth values. */
  lemma FromStep(prev: nat, hit: bool, atA: bool, atB: bool, aOld: bool, bOld: bool,
                 lastA: bool, lastB: bool, aNew: bool, bNew: bool)
    requires prev == if (atA && bOld) || (atB && aOld) then 1 else 0
    requires hit <==> (atA && lastB) || (atB && lastA)
    requires aNew <==> aOld || lastA
    requires bNew <==> bOld || lastB
    requires lastA ==> !aOld
    requires lastB ==> !bOld
    requires !(atA && atB) && !(atA && lastA) && !(atB && lastB)
    ensures prev + (if hit then 1 else 0) == if (atA && bNew) || (atB && aNew) then 1 else 0
  {
  }

  /** Splitting a range splits membership in it. */
  lemma InRangeSplit(u: seq<string>, x: string, lo: nat, mid: nat, hi: nat)
    requires lo <= mid <= hi <= |u|
    ensures InRange(u, x, lo, hi) <==> InRange(u, x, lo, mid) || InRange(u, x, mid, hi)
  {
    if InRange(u, x, lo, hi) {
      var m := InRangeWitness(u, x, lo, hi);
      if m < mid {
        InRangeOf(u, x, lo, mid, m);
      } else {
        InRangeOf(u, x, mid, hi, m);
      }
    }
    if InRange(u, x, lo, mid) {
      var m := InRangeWitness(u, x, lo, mid);
      InRangeOf(u, x, lo, hi, m);
    }
    if InRange(u, x, mid, hi) {
      var m := InRangeWitness(u, x, mid, hi);
      InRangeOf(u, x, lo, hi, m);
    }
  }

  /** Membership in a whole sequence is membership in its full range. */
  lemma InRangeAll(u: seq<string>, x: string)
    ensures x in u <==> InRange(u, x, 0, |u|)
  {
    if x in u {
      var m :| 0 <= m < |u| && u[m] == x;
      InRangeOf(u, x, 0, |u|, m);
    }
    if InRange(u, x, 0, |u|) {
      var m := InRangeWitness(u, x, 0, |u|);
    }
  }

  /** In a sequence without repeats, an element sits on one side of a
      position at most. */
  lemma OneSide(u: seq<string>, x: string, n: nat)
    requires Distinct(u) && 0 < n <= |u|
    ensures !(InRange(u, x, 0, n - 1) && InRange(u, x, n, |u|))
    ensures u[n - 1] == x ==> !InRange(u, x, 0, n - 1) && !InRange(u, x, n, |u|)
  {
    if InRange(u, x, 0, n - 1) {
      var m := InRangeWitness(u, x, 0, n - 1);
    }
    if InRange(u, x, n, |u|) {
      var m := InRangeWitness(u, x, n, |u|);
    }
  }

  /** The bookkeeping of one step of AllPairsCount, on truth values: the
      pair is counted before the step or in it, never in both. */
  lemma CountStep(prev: nat, add: nat, inA: bool, inB: bool, a0: bool, b0: bool,
                  atA: bool, atB: bool, aR: bool, bR: bool)
    requires inA <==> a0 || atA || aR
    requires inB <==> b0 || atB || bR
    requires atA ==> !a0 && !aR
    requires atB ==> !b0 && !bR
    requires !(atA && atB) && !(a0 && aR) && !(b0 && bR)
    requires prev == if inA && inB && (a0 || b0) then 1 else 0
    requires add == if (atA && bR) || (atB && aR) then 1 else 0
    ensures prev + add == if inA && inB && (a0 || atA || b0 || atB) then 1 else 0
  {
  }

  /** The nested loops over `u[0..n)` add the key of `{a, b}` once when both
      are in `u` and one of them sits below `n`, else never. */
  lemma {:induction false} AllPairsCount(u: seq<string>, n: nat, a: string, b: string)
    requires n <= |u| && Distinct(u)
    requires forall m :: 0 <= m < |u| ==> NoBar(u[m])
    requires NoBar(a) && NoBar(b) && a != b
    ensures multiset(AllPairs(u, n))[PairKey(a, b)]
            == if a in u && b in u && (InRange(u, a, 0, n) || InRange(u, b, 0, n)) then 1 else 0
  {
    if n > 0 {
      var k := PairKey(a, b);
      assert multiset(AllPairs(u, n))[k]
             == multiset(AllPairs(u, n - 1))[k] + multiset(PairsFrom(u, n - 1, |u|))[k];
      AllPairsCount(u, n - 1, a, b);
      PairsFromCount(u, n - 1, |u|, a, b);
      InRangeAll(u, a);
      InRangeAll(u, b);
      InRangeSplit(u, a, 0, n - 1, |u|);
      InRangeSplit(u, b, 0, n - 1, |u|);
      InRangeSplit(u, a, n - 1, n, |u|);
      InRangeSplit(u, b, n - 1, n, |u|);
      InRangeSplit(u, a, 0, n - 1, n);
      InRangeSplit(u, b, 0, n - 1, n);
      assert InRange(u, a, n - 1, n) <==> u[n - 1] == a by {
        assert !InRange(u, a, n - 1, n - 1);
      }
      assert InRange(u, b, n - 1, n) <==> u[n - 1] == b by {
        assert !InRange(u, b, n - 1, n - 1);
      }
      OneSide(u, a, n);
      OneSide(u, b, n);
      CountStep(multiset(AllPairs(u, n - 1))[k], multiset(PairsFrom(u, n - 1, |u|))[k],
                a in u, b in u, InRange(u, a, 0, n - 1), InRange(u, b, 0, n - 1),
                u[n - 1] == a, u[n - 1] == b, InRange(u, a, n, |u|), InRange(u, b, n, |u|));
    }
  }

  /** A name a record lists is well formed and holds no `|`. */
  lemma NameOfRecord(r: Row, p: string)
    requires p in Inventors(r)
    ensures WellFormed(p) && NoBar(p)
  {
    var invs := Inventors(r);
    var k :| 0 <= k < |invs| && invs[k] == p;
    assert WellFormed(invs[k]);
  }

  /** The names of a record hold no `|`. */
  lemma InventorsNoBar(r: Row)
    ensures forall m :: 0 <= m < |Uniq(r)| ==> NoBar(Uniq(r)[m])
  {
    forall m | 0 <= m < |Uniq(r)|
      ensures NoBar(Uniq(r)[m])
    {
      var x := Uniq(r)[m];
      assert x in Inventors(r);
      var k :| 0 <= k < |Inventors(r)| && Inventors(r)[k] == x;
      assert WellFormed(Inventors(r)[k]);
    }
  }

  /** One record adds the key of `{a, b}` once when it takes part and names
      both, else never. */
  lemma RowPairsCount(r: Row, a: string, b: string)
    requires NoBar(a) && NoBar(b) && a != b
    ensures multiset(RowPairs(r))[PairKey(a, b)]
            == if Qualifies(r) && a in Inventors(r) && b in Inventors(r) then 1 else 0
  {
    if Qualifies(r) {
      var u := Uniq(r);
      InventorsNoBar(r);
      AllPairsCount(u, |u|, a, b);
      InRangeAll(u, a);
      InRangeAll(u, b);
    }
  }

  /** `edgeCount.get(key)` for the key of `{a, b}` is the number of taking-part
      records naming both. */
  lemma {:induction false} PairCount(rows: seq<Row>, a: string, b: string)
    requires NoBar(a) && NoBar(b) && a != b
    ensures multiset(PairStream(rows))[PairKey(a, b)] == RecordsWithBoth(rows, a, b)
  {
    if rows != [] {
      PairCount(rows[..|rows| - 1], a, b);
      RowPairsCount(rows[|rows| - 1], a, b);
    }
  }

  /** The pair of positions whose key the nested loops added. */
  lemma {:induction false} PairsFromMember(u: seq<string>, i: nat, hi: nat, k: string) returns (j: nat)
    requires i < |u| && hi <= |u| && k in PairsFrom(u, i, hi)
    ensures i < j < hi && k == PairKey(u[i], u[j])
    decreases hi
  {
    if k == PairKey(u[i], u[hi - 1]) {
      j := hi - 1;
    } else {
      j := PairsFromMember(u, i, hi - 1, k);
    }
  }

  lemma {:induction false} AllPairsMember(u: seq<string>, n: nat, k: string) returns (i: nat, j: nat)
    requires n <= |u| && k in AllPairs(u, n)
    ensures i < j < |u| && k == PairKey(u[i], u[j])
  {
    if k in PairsFrom(u, n - 1, |u|) {
      i := n - 1;
      j := PairsFromMember(u, n - 1, |u|, k);
    } else {
      i, j := AllPairsMember(u, n - 1, k);
    }
  }

  /** Every key of `edgeCount` is the key of two different names without
      `|` that some taking-part record names together; `key.split('|||')`
      gives them back, the smaller first. */
  lemma {:induction false} PairOfKey(rows: seq<Row>, k: string) returns (a: string, b: string)
    requires k in PairStream(rows)
    ensures a != b && NoBar(a) && NoBar(b)
    ensures k == PairKey(a, b) && SplitOn(k, "|||") == [a, b]
  {
    var n := |rows| - 1;
    if k in PairStream(rows[..n]) {
      a, b := PairOfKey(rows[..n], k);
    } else {
      var r := rows[n];
      var u := Uniq(r);
      var i, j := AllPairsMember(u, |u|, k);
      InventorsNoBar(r);
      PairKeySplit(u[i], u[j]);
      PairKeySymmetric(u[i], u[j]);
      if Less(u[i], u[j]) {
        a, b := u[i], u[j];
      } else {
        a, b := u[j], u[i];
      }
    }
  }

  // ---------------------------------------------------------------------------
  // The aggregation loops

  /** One entry of `nodeData`: the record count and the `pubs` set, kept in
      insertion order. */
  datatype NodeData = NodeData(count: nat, pubs: seq<string>)

  /** What `pubs` holds after the numbers `s` were offered: the first five
      different ones. */
  function FirstPubs(s: seq<string>): (r: seq<string>)
    ensures |r| <= 5 && Distinct(r)
  {
    Take(Dedup(s), 5)
  }

  /** `if (nd.pubs.size < 5) nd.pubs.add(x)` keeps FirstPubs. */
  lemma FirstPubsSnoc(s: seq<string>, x: string)
    ensures FirstPubs(s + [x])
            == if |FirstPubs(s)| < 5 && x !in FirstPubs(s) then FirstPubs(s) + [x] else FirstPubs(s)
  {
    DedupSnoc(s, x);
    var d := Dedup(s);
    if |d| >= 5 {
      assert (d + [x])[..5] == d[..5];
    }
  }

  /** One call of the `uniq.forEach` callback: the inventor and the
      record's `pub_no`. */
  datatype Naming = Naming(name: string, pub: Option<string>)

  /** `nodeData`: its keys in insertion order and the entry of each. */
  datatype Nodes = Nodes(order: seq<string>, data: map<string, NodeData>)

  /** The callback on `nodeData`: a new inventor gets a zero entry at the
      end; the count goes up by one; a truthy `pub_no` joins `pubs` while it
      holds fewer than five numbers (adding one it holds changes nothing). */
  function Visit(c: Nodes, e: Naming): Nodes {
    var nd := if e.name in c.data then c.data[e.name] else NodeData(0, []);
    var pubs := if e.pub.Some? && |nd.pubs| < 5 && e.pub.value !in nd.pubs
                then nd.pubs + [e.pub.value] else nd.pubs;
    Nodes(if e.name in c.data then c.order else c.order + [e.name],
          c.data[e.name := NodeData(nd.count + 1, pubs)])
  }

  /** `nodeData` after the calls `s`, starting from an empty Map. */
  function NodeTally(s: seq<Naming>): Nodes {
    if s == [] then Nodes([], map[]) else Visit(NodeTally(s[..|s| - 1]), s[|s| - 1])
  }

  /** The inventors of the calls `s`, in order. */
  function NamesOf(s: seq<Naming>): seq<string> {
    seq(|s|, i requires 0 <= i < |s| => s[i].name)
  }

  lemma NamesOfSnoc(s: seq<Naming>)
    requires s != []
    ensures NamesOf(s) == NamesOf(s[..|s| - 1]) + [s[|s| - 1].name]
  {
  }

  lemma NamesOfAppend(s: seq<Naming>, t: seq<Naming>)
    ensures NamesOf(s + t) == NamesOf(s) + NamesOf(t)
  {
    var u, v := NamesOf(s + t), NamesOf(s) + NamesOf(t);
    assert |u| == |v|;
    forall i | 0 <= i < |u|
      ensures u[i] == v[i]
    {
      if i < |s| {
        assert (s + t)[i] == s[i];
      } else {
        assert (s + t)[i] == t[i - |s|];
      }
    }
  }

  /** The publication numbers the calls `s` offer to the `pubs` of `p`. */
  function PubsOf(s: seq<Naming>, p: string): seq<string> {
    if s == [] then []
    else
      var e := s[|s| - 1];
      PubsOf(s[..|s| - 1], p) + if e.name == p then Offered(e.pub) else []
  }

  lemma {:induction false} PubsOfUnnamed(s: seq<Naming>, p: string)
    requires p !in NamesOf(s)
    ensures PubsOf(s, p) == []
  {
    if s != [] {
      var n := |s| - 1;
      assert NamesOf(s[..n]) == NamesOf(s)[..n];
      assert NamesOf(s)[n] == s[n].name;
      PubsOfUnnamed(s[..n], p);
    }
  }

  /** What `nodeData` in the state `c` says about `p` is what the calls
      `s` say: whether `p` was named, how often, and what it was offered. */
  ghost predicate Holds(c: Nodes, s: seq<Naming>, p: string) {
    && (p in c.data <==> p in NamesOf(s))
    && (p in c.data ==> c.data[p] == NodeData(multiset(NamesOf(s))[p], FirstPubs(PubsOf(s, p))))
  }

  lemma VisitNamed(c: Nodes, s: seq<Naming>, e: Naming)
    requires Holds(c, s, e.name)
    ensures Holds(Visit(c, e), s + [e], e.name)
  {
    var p := e.name;
    NamingSnoc(s, e);
    if p !in c.data {
      PubsOfUnnamed(s, p);
    }
    VisitEntry(c, e, multiset(NamesOf(s))[p], PubsOf(s, p));
  }

  /** The callback on an inventor counted `k` times and offered `ps` so far. */
  lemma VisitEntry(c: Nodes, e: Naming, k: nat, ps: seq<string>)
    requires e.name in c.data ==> c.data[e.name] == NodeData(k, FirstPubs(ps))
    requires e.name !in c.data ==> k == 0 && ps == []
    ensures e.name in Visit(c, e).data
    ensures Visit(c, e).data[e.name] == NodeData(k + 1, FirstPubs(ps + Offered(e.pub)))
  {
    FirstPubsOffer(ps, e.pub);
    assert FirstPubs([]) == [];
  }


  /** Offering a `pub_no` keeps FirstPubs of the offers. */
  lemma FirstPubsOffer(ps: seq<string>, pub: Option<string>)
    ensures FirstPubs(ps + Offered(pub))
            == if pub.Some? && |FirstPubs(ps)| < 5 && pub.value !in FirstPubs(ps)
               then FirstPubs(ps) + [pub.value] else FirstPubs(ps)
  {
    if pub.Some? {
      FirstPubsSnoc(ps, pub.value);
    } else {
      assert ps + Offered(pub) == ps;
    }
  }


  /** One more call names its inventor once more and offers it its `pub_no`. */
  lemma NamingSnoc(s: seq<Naming>, e: Naming)
    ensures NamesOf(s + [e]) == NamesOf(s) + [e.name]
    ensures multiset(NamesOf(s + [e]))[e.name] == multiset(NamesOf(s))[e.name] + 1
    ensures PubsOf(s + [e], e.name) == PubsOf(s, e.name) + Offered(e.pub)
  {
    var t := s + [e];
    assert t[..|s|] == s;
    NamesOfSnoc(t);
  }


  lemma VisitOther(c: Nodes, s: seq<Naming>, e: Naming, p: string)
    requires Holds(c, s, p) && p != e.name
    ensures Holds(Visit(c, e), s + [e], p)
  {
    var t := s + [e];
    assert t[..|s|] == s;
    assert NamesOf(t) == NamesOf(s) + [e.name];
    assert multiset(NamesOf(t))[p] == multiset(NamesOf(s))[p];
    assert PubsOf(t, p) == PubsOf(s, p);
  }

  /** `nodeData` holds each inventor of the calls once, in first-call
      order, with the number of calls naming it and the first five
      different numbers offered to it. */
  lemma {:induction false} NodeTallyMeaning(s: seq<Naming>)
    ensures NodeTally(s).order == Dedup(NamesOf(s))
    ensures forall p :: Holds(NodeTally(s), s, p)
  {
    if s != [] {
      var n := |s| - 1;
      var e, c, ns := s[n], NodeTally(s[..n]), NamesOf(s[..n]);
      NodeTallyMeaning(s[..n]);
      NamesOfSnoc(s);
      assert NodeTally(s) == Visit(c, e);
      assert Holds(c, s[..n], e.name);
      DedupSnoc(ns, e.name);
      LastSplit(s);
      forall p
        ensures Holds(NodeTally(s), s, p)
      {
        if p == e.name {
          VisitNamed(c, s[..n], e);
        } else {
          VisitOther(c, s[..n], e, p);
        }
      }
    }
  }

  /** The calls `uniq.forEach` makes for `u[0..hi)`. */
  function Namings(u: seq<string>, pub: Option<string>, hi: nat): (s: seq<Naming>)
    requires hi <= |u|
    ensures |s| == hi
  {
    if hi == 0 then [] else Namings(u, pub, hi - 1) + [Naming(u[hi - 1], pub)]
  }

  lemma {:induction false} NamingsNames(u: seq<string>, pub: Option<string>, hi: nat)
    requires hi <= |u|
    ensures NamesOf(Namings(u, pub, hi)) == u[..hi]
  {
    if hi > 0 {
      NamingsNames(u, pub, hi - 1);
      var s := Namings(u, pub, hi);
      assert s[..hi - 1] == Namings(u, pub, hi - 1);
      NamesOfSnoc(s);
      PrefixSnoc(u, hi);
    }
  }

  lemma {:induction false} NamingsPubs(u: seq<string>, pub: Option<string>, hi: nat, p: string)
    requires hi <= |u| && Distinct(u)
    ensures PubsOf(Namings(u, pub, hi), p) == if p in u[..hi] then Offered(pub) else []
  {
    if hi > 0 {
      NamingsPubs(u, pub, hi - 1, p);
      var s := Namings(u, pub, hi);
      assert s[..hi - 1] == Namings(u, pub, hi - 1);
      assert s[hi - 1] == Naming(u[hi - 1], pub);
      assert PubsOf(s, p) == PubsOf(s[..hi - 1], p) + if u[hi - 1] == p then Offered(pub) else [];
      PrefixSnoc(u, hi);
      if u[hi - 1] == p {
        DistinctLast(u, hi);
        assert PubsOf(s[..hi - 1], p) == [];
      } else {
        assert (p in u[..hi]) == (p in u[..hi - 1]);
      }
    }
  }

  lemma DistinctLast(u: seq<string>, hi: nat)
    requires 0 < hi <= |u| && Distinct(u)
    ensures u[hi - 1] !in u[..hi - 1]
  {
  }

  lemma NamingsOf(u: seq<string>, pub: Option<string>, hi: nat, p: string)
    requires hi <= |u| && Distinct(u)
    ensures NamesOf(Namings(u, pub, hi)) == u[..hi]
    ensures PubsOf(Namings(u, pub, hi), p) == if p in u[..hi] then Offered(pub) else []
  {
    NamingsNames(u, pub, hi);
    NamingsPubs(u, pub, hi, p);
  }

  /** The calls one record makes. */
  function RowNamings(r: Row): seq<Naming> {
    if Qualifies(r) then Namings(Uniq(r), RowPub(r), |Uniq(r)|) else []
  }

  /** Every call the records make, in order. */
  function NamingStream(rows: seq<Row>): seq<Naming> {
    if rows == [] then [] else NamingStream(rows[..|rows| - 1]) + RowNamings(rows[|rows| - 1])
  }

  lemma {:induction false} PubsOfAppend(s: seq<Naming>, t: seq<Naming>, p: string)
    ensures PubsOf(s + t, p) == PubsOf(s, p) + PubsOf(t, p)
    decreases |t|
  {
    if t == [] {
      assert s + t == s;
    } else {
      var n := |t| - 1;
      var u := s + t;
      assert u[..|u| - 1] == s + t[..n];
      assert u[|u| - 1] == t[n];
      PubsOfAppend(s, t[..n], p);
    }
  }

  lemma RowNamingsMeaning(r: Row, p: string)
    ensures NamesOf(RowNamings(r)) == if Qualifies(r) then Uniq(r) else []
    ensures multiset(NamesOf(RowNamings(r)))[p] == if Qualifies(r) && p in Inventors(r) then 1 else 0
    ensures PubsOf(RowNamings(r), p)
            == if Qualifies(r) && p in Inventors(r) then Offered(RowPub(r)) else []
  {
    if Qualifies(r) {
      AllNamings(Uniq(r), RowPub(r), p);
    }
  }

  /** The calls for a whole list of distinct names. */
  lemma AllNamings(u: seq<string>, pub: Option<string>, p: string)
    requires Distinct(u)
    ensures NamesOf(Namings(u, pub, |u|)) == u
    ensures multiset(u)[p] == if p in u then 1 else 0
    ensures PubsOf(Namings(u, pub, |u|), p) == if p in u then Offered(pub) else []
  {
    NamingsOf(u, pub, |u|, p);
    assert u[..|u|] == u;
    DistinctCount(u, p);
  }

  /** The calls of the records name, per inventor, the taking-part records
      naming it, and offer the `pub_no` of those records. */
  lemma {:induction false} NamingStreamMeaning(rows: seq<Row>, p: string)
    ensures NamesOf(NamingStream(rows)) == NameStream(rows)
    ensures multiset(NameStream(rows))[p] == RecordsWith(rows, p)
    ensures PubsOf(NamingStream(rows), p) == PubStream(rows, p)
  {
    if rows != [] {
      var n := |rows| - 1;
      var r := rows[n];
      var s, t := NamingStream(rows[..n]), RowNamings(r);
      NamingStreamMeaning(rows[..n], p);
      PubsOfAppend(s, t, p);
      RowNamingsMeaning(r, p);
      NamesOfAppend(s, t);
    }
  }

  /** `nodeData` after the records: an entry for each inventor some
      taking-part record names, in first-naming order, holding the number of
      such records and the first five different `pub_no` of them. */
  lemma NodeTallyOfRows(rows: seq<Row>)
    ensures NodeTally(NamingStream(rows)).order == Dedup(NameStream(rows))
    ensures forall p :: p in NodeTally(NamingStream(rows)).data <==> RecordsWith(rows, p) > 0
    ensures forall p :: p in NodeTally(NamingStream(rows)).data ==>
              NodeTally(NamingStream(rows)).data[p]
              == NodeData(RecordsWith(rows, p), FirstPubs(PubStream(rows, p)))
  {
    var s := NamingStream(rows);
    NodeTallyMeaning(s);
    NamingStreamMeaning(rows, "");
    forall p
      ensures p in NodeTally(s).data <==> RecordsWith(rows, p) > 0
      ensures p in NodeTally(s).data ==> NodeTally(s).data[p] == NodeData(RecordsWith(rows, p), FirstPubs(PubStream(rows, p)))
    {
      NamingStreamMeaning(rows, p);
      assert Holds(NodeTally(s), s, p);
    }
  }

  /** A JavaScript Map from keys to counts: its keys in insertion order and
      the count of each. */
  datatype Counter = Counter(keys: seq<string>, counts: map<string, nat>)

  /** The Map after `m.set(x, (m.get(x) || 0) + 1)` for every `x` of `s`,
      starting from an empty Map. */
  function TallyOf(s: seq<string>): Counter {
    if s == [] then Counter([], map[])
    else
      var c := TallyOf(s[..|s| - 1]);
      var x := s[|s| - 1];
      Counter(if x in c.counts then c.keys else c.keys + [x],
              c.counts[x := (if x in c.counts then c.counts[x] else 0) + 1])
  }

  lemma {:induction false} TallyDomain(s: seq<string>)
    ensures forall k :: k in TallyOf(s).counts <==> k in s
  {
    if s != [] {
      var n := |s| - 1;
      TallyDomain(s[..n]);
      LastSplit(s);
      forall k
        ensures k in TallyOf(s).counts <==> k in s
      {
        assert k in s <==> k in s[..n] || k == s[n];
      }
    }
  }

  lemma {:induction false} TallyOrder(s: seq<string>)
    ensures TallyOf(s).keys == Dedup(s)
  {
    if s != [] {
      var n := |s| - 1;
      TallyOrder(s[..n]);
      TallyDomain(s[..n]);
      LastSplit(s);
      DedupSnoc(s[..n], s[n]);
    }
  }

  lemma {:induction false} TallyCounts(s: seq<string>, k: string)
    requires k in TallyOf(s).counts
    ensures TallyOf(s).counts[k] == multiset(s)[k]
  {
    var n := |s| - 1;
    var x := s[n];
    LastSplit(s);
    assert multiset(s)[k] == multiset(s[..n])[k] + if k == x then 1 else 0;
    TallyDomain(s[..n]);
    if k in TallyOf(s[..n]).counts {
      TallyCounts(s[..n], k);
    } else {
      assert k !in s[..n];
    }
  }

  /** The tally holds each key of `s` once, in first-occurrence order, with
      its number of occurrences, and nothing else. */
  lemma TallyMeaning(s: seq<string>)
    ensures TallyOf(s).keys == Dedup(s)
    ensures forall k :: k in TallyOf(s).counts <==> k in s
    ensures forall k :: k in TallyOf(s).counts ==> TallyOf(s).counts[k] == multiset(s)[k]
  {
    TallyOrder(s);
    TallyDomain(s);
    forall k | k in TallyOf(s).counts
      ensures TallyOf(s).counts[k] == multiset(s)[k]
    {
      TallyCounts(s, k);
    }
  }


  /** `edgeCount.set(key, (edgeCount.get(key) || 0) + 1)`: one more
      occurrence of `key`. */
  method Bump(ghost s: seq<string>, keys: seq<string>, weight: map<string, nat>, key: string)
    returns (keys': seq<string>, weight': map<string, nat>)
    requires Counter(keys, weight) == TallyOf(s)
    ensures Counter(keys', weight') == TallyOf(s + [key])
  {
    assert (s + [key])[..|s|] == s;
    var w := if key in weight then weight[key] else 0;
    keys' := keys;
    if key !in weight {
      keys' := keys + [key];
    }
    weight' := weight[key := w + 1];
  }

  lemma AllPairsStep(s: seq<string>, u: seq<string>, i: nat, done: seq<string>)
    requires i < |u| && done == s + AllPairs(u, i)
    ensures done + PairsFrom(u, i, |u|) == s + AllPairs(u, i + 1)
  {
  }

  lemma PairsFromNone(s: seq<string>, u: seq<string>, i: nat)
    requires i < |u|
    ensures s + PairsFrom(u, i, i + 1) == s
  {
  }

  lemma PairsFromStep(s: seq<string>, u: seq<string>, i: nat, j: nat, done: seq<string>, key: string)
    requires i < j < |u|
    requires done == s + PairsFrom(u, i, j) && key == PairKey(u[i], u[j])
    ensures done + [key] == s + PairsFrom(u, i, j + 1)
  {
  }

  /** The inner loop `for j` for `uniq[i]`. */
  method CountPairsFrom(ghost s: seq<string>, uniq: seq<string>, i: nat, keys: seq<string>, weight: map<string, nat>)
    returns (keys': seq<string>, weight': map<string, nat>)
    requires i < |uniq|
    requires Counter(keys, weight) == TallyOf(s)
    ensures Counter(keys', weight') == TallyOf(s + PairsFrom(uniq, i, |uniq|))
  {
    keys', weight' := keys, weight;
    PairsFromNone(s, uniq, i);
    for j := i + 1 to |uniq|
      invariant Counter(keys', weight') == TallyOf(s + PairsFrom(uniq, i, j))
    {
      var a, b := uniq[i], uniq[j];
      var key := PairKey(a, b);
      ghost var done := s + PairsFrom(uniq, i, j);
      PairsFromStep(s, uniq, i, j, done, key);
      keys', weight' := Bump(done, keys', weight', key);
      assert Counter(keys', weight') == TallyOf(s + PairsFrom(uniq, i, j + 1));
    }
  }

  /** The loops `for i`, `for j` of one record: one more for the key of
      every pair of its distinct names. */
  method CountPairs(ghost s: seq<string>, uniq: seq<string>, keys: seq<string>, weight: map<string, nat>)
    returns (keys': seq<string>, weight': map<string, nat>)
    requires Counter(keys, weight) == TallyOf(s)
    ensures Counter(keys', weight') == TallyOf(s + AllPairs(uniq, |uniq|))
  {
    keys', weight' := keys, weight;
    assert s + AllPairs(uniq, 0) == s;
    for i := 0 to |uniq|
      invariant Counter(keys', weight') == TallyOf(s + AllPairs(uniq, i))
    {
      ghost var done := s + AllPairs(uniq, i);
      AllPairsStep(s, uniq, i, done);
      keys', weight' := CountPairsFrom(done, uniq, i, keys', weight');
    }
  }

  /** The `uniq.forEach` callback for `p`. */
  method VisitName(ghost s: seq<Naming>, order: seq<string>, data: map<string, NodeData>, p: string, pub: Option<string>)
    returns (order': seq<string>, data': map<string, NodeData>)
    requires Nodes(order, data) == NodeTally(s)
    ensures Nodes(order', data') == NodeTally(s + [Naming(p, pub)])
  {
    assert (s + [Naming(p, pub)])[..|s|] == s;
    order', data' := order, data;
    if p !in data' {
      order' := order' + [p];
      data' := data'[p := NodeData(0, [])];
    }
    var nd := data'[p];
    nd := nd.(count := nd.count + 1);
    if pub.Some? && |nd.pubs| < 5 {
      var x := pub.value;
      if x !in nd.pubs {
        nd := nd.(pubs := nd.pubs + [x]);
      }
    }
    data' := data'[p := nd];
  }

  lemma NamingsStep(s: seq<Naming>, u: seq<string>, pub: Option<string>, i: nat, done: seq<Naming>)
    requires i < |u| && done == s + Namings(u, pub, i)
    ensures done + [Naming(u[i], pub)] == s + Namings(u, pub, i + 1)
  {
  }

  /** `uniq.forEach(p => ...)` for one record. */
  method CountNames(ghost s: seq<Naming>, uniq: seq<string>, pub: Option<string>,
                    order: seq<string>, data: map<string, NodeData>)
    returns (order': seq<string>, data': map<string, NodeData>)
    requires Nodes(order, data) == NodeTally(s)
    ensures Nodes(order', data') == NodeTally(s + Namings(uniq, pub, |uniq|))
  {
    order', data' := order, data;
    assert s + Namings(uniq, pub, 0) == s;
    for i := 0 to |uniq|
      invariant Nodes(order', data') == NodeTally(s + Namings(uniq, pub, i))
    {
      ghost var done := s + Namings(uniq, pub, i);
      NamingsStep(s, uniq, pub, i, done);
      order', data' := VisitName(done, order', data', uniq[i], pub);
    }
  }


  /** The streams after one more record: nothing new when its cleaned list
      is shorter than two, else the calls and keys of its distinct names. */
  lemma RowStep(rows: seq<Row>, k: nat, invs: seq<string>)
    requires k < |rows| && invs == Inventors(rows[k])
    ensures |invs| < 2 ==> NamingStream(rows[..k + 1]) == NamingStream(rows[..k])
    ensures |invs| < 2 ==> PairStream(rows[..k + 1]) == PairStream(rows[..k])
    ensures |invs| >= 2 ==> NamingStream(rows[..k + 1])
                            == NamingStream(rows[..k]) + Namings(Dedup(invs), RowPub(rows[k]), |Dedup(invs)|)
    ensures |invs| >= 2 ==> PairStream(rows[..k + 1])
                            == PairStream(rows[..k]) + AllPairs(Dedup(invs), |Dedup(invs)|)
  {
    assert rows[..k + 1][..k] == rows[..k];
    assert rows[..k + 1][k] == rows[k];
  }

  /** The loop `for (const r of rows)`: `nodeData` and `edgeCount` after
      every sampled record. */
  method Aggregate(rows: seq<Row>)
    returns (order: seq<string>, data: map<string, NodeData>, keys: seq<string>, weight: map<string, nat>)
    ensures Nodes(order, data) == NodeTally(NamingStream(rows))
    ensures Counter(keys, weight) == TallyOf(PairStream(rows))
  {
    order, data, keys, weight := [], map[], [], map[];
    for k := 0 to |rows|
      invariant Nodes(order, data) == NodeTally(NamingStream(rows[..k]))
      invariant Counter(keys, weight) == TallyOf(PairStream(rows[..k]))
    {
      var r := rows[k];
      var invs := Inventors(r);
      RowStep(rows, k, invs);
      if |invs| < 2 {
        continue;
      }
      var uniq := Dedup(invs);
      order, data := CountNames(NamingStream(rows[..k]), uniq, RowPub(r), order, data);
      keys, weight := CountPairs(PairStream(rows[..k]), uniq, keys, weight);
    }
    assert rows[..|rows|] == rows;
  }

  /** `edgeCount` after the records: the keys in first-addition order; a
      pair of different names without `|` has an entry exactly when some
      taking-part record names both, and its weight is the number of such
      records. */
  lemma EdgeTallyOfRows(rows: seq<Row>)
    ensures TallyOf(PairStream(rows)).keys == Dedup(PairStream(rows))
    ensures forall a, b :: NoBar(a) && NoBar(b) && a != b ==>
              (PairKey(a, b) in TallyOf(PairStream(rows)).counts <==> RecordsWithBoth(rows, a, b) > 0)
    ensures forall a, b :: NoBar(a) && NoBar(b) && a != b && PairKey(a, b) in TallyOf(PairStream(rows)).counts ==>
              TallyOf(PairStream(rows)).counts[PairKey(a, b)] == RecordsWithBoth(rows, a, b)
  {
    TallyOrder(PairStream(rows));
    forall a, b | NoBar(a) && NoBar(b) && a != b
      ensures PairKey(a, b) in TallyOf(PairStream(rows)).counts <==> RecordsWithBoth(rows, a, b) > 0
      ensures PairKey(a, b) in TallyOf(PairStream(rows)).counts ==>
                TallyOf(PairStream(rows)).counts[PairKey(a, b)] == RecordsWithBoth(rows, a, b)
    {
      PairTallyAt(rows, a, b);
    }
  }

  /** The tally entry of one pair of names is the number of records naming both. */
  lemma PairTallyAt(rows: seq<Row>, a: string, b: string)
    requires NoBar(a) && NoBar(b) && a != b
    ensures PairKey(a, b) in TallyOf(PairStream(rows)).counts <==> RecordsWithBoth(rows, a, b) > 0
    ensures PairKey(a, b) in TallyOf(PairStream(rows)).counts ==>
              TallyOf(PairStream(rows)).counts[PairKey(a, b)] == RecordsWithBoth(rows, a, b)
  {
    var s, k := PairStream(rows), PairKey(a, b);
    PairCount(rows, a, b);
    TallyDomain(s);
    assert k in s <==> multiset(s)[k] > 0;
    if k in TallyOf(s).counts {
      TallyCounts(s, k);
    }
  }


  /** Every key of `edgeCount` names two different inventors without `|`,
      which `key.split('|||')` gives back, and its weight is the number of
      taking-part records naming both. */
  lemma EdgeOfKey(rows: seq<Row>, k: string) returns (a: string, b: string)
    requires k in TallyOf(PairStream(rows)).counts
    ensures a != b && NoBar(a) && NoBar(b)
    ensures k == PairKey(a, b) && SplitOn(k, "|||") == [a, b]
    ensures TallyOf(PairStream(rows)).counts[k] == RecordsWithBoth(rows, a, b) > 0
  {
    TallyMeaning(PairStream(rows));
    a, b := PairOfKey(rows, k);
    PairCount(rows, a, b);
  }

  // ---------------------------------------------------------------------------
  // Ranking: `Array.from(nodeData.entries()).sort(...).slice(0, topN)`

  /** One `[name, {count, pubs}]` entry of `nodeData`. */
  datatype Entry = Entry(name: string, data: NodeData)

  /** `Array.from(nodeData.entries())`: the entries in insertion order. */
  function Entries(c: Nodes): (es: seq<Entry>)
    requires forall i :: 0 <= i < |c.order| ==> c.order[i] in c.data
    ensures |es| == |c.order|
    ensures forall i :: 0 <= i < |es| ==> es[i] == Entry(c.order[i], c.data[c.order[i]])
  {
    seq(|c.order|, i requires 0 <= i < |c.order| => Entry(c.order[i], c.data[c.order[i]]))
  }

  /** Every key the tally lists in its order is one of its entries. */
  lemma NodeTallyOrder(s: seq<Naming>)
    ensures forall i :: 0 <= i < |NodeTally(s).order| ==> NodeTally(s).order[i] in NodeTally(s).data
  {
    NodeTallyMeaning(s);
    forall i | 0 <= i < |NodeTally(s).order|
      ensures NodeTally(s).order[i] in NodeTally(s).data
    {
      assert Holds(NodeTally(s), s, NodeTally(s).order[i]);
    }
  }

  function Count(e: Entry): nat {
    e.data.count
  }

  /** Counts never increase from left to right. */
  predicate ByCount(s: seq<Entry>) {
    forall i, j :: 0 <= i < j < |s| ==> Count(s[i]) >= Count(s[j])
  }

  /** The entries with count `c`, in order. */
  function WithCount(s: seq<Entry>, c: nat): seq<Entry> {
    if s == [] then []
    else WithCount(s[..|s| - 1], c) + if Count(s[|s| - 1]) == c then [s[|s| - 1]] else []
  }

  /** `x` placed after the last entry whose count is not smaller. */
  function InsertByCount(x: Entry, s: seq<Entry>): seq<Entry>
    decreases |s|
  {
    if s == [] || Count(s[|s| - 1]) >= Count(x) then s + [x]
    else InsertByCount(x, s[..|s| - 1]) + [s[|s| - 1]]
  }

  /** `.sort((a, b) => b[1].count - a[1].count)`, a stable sort, as an
      insertion sort. */
  function SortByCount(es: seq<Entry>): (r: seq<Entry>)
    ensures ByCount(r)
    ensures multiset(r) == multiset(es)
    ensures |r| == |es|
  {
    if es == [] then []
    else
      var n := |es| - 1;
      var s := SortByCount(es[..n]);
      InsertByCountSorted(es[n], s);
      InsertByCountPerm(es[n], s);
      LastSplit(es);
      assert |InsertByCount(es[n], s)| == |multiset(InsertByCount(es[n], s))|;
      InsertByCount(es[n], s)
  }

  lemma {:induction false} InsertByCountPerm(x: Entry, s: seq<Entry>)
    ensures multiset(InsertByCount(x, s)) == multiset(s) + multiset{x}
    decreases |s|
  {
    if s != [] && Count(s[|s| - 1]) < Count(x) {
      var n := |s| - 1;
      InsertByCountPerm(x, s[..n]);
      assert s == s[..n] + [s[n]];
    }
  }

  lemma {:induction false} InsertByCountSorted(x: Entry, s: seq<Entry>)
    requires ByCount(s)
    ensures ByCount(InsertByCount(x, s))
    decreases |s|
  {
    if s != [] && Count(s[|s| - 1]) < Count(x) {
      var n := |s| - 1;
      var l := s[n];
      var t := InsertByCount(x, s[..n]);
      InsertByCountSorted(x, s[..n]);
      InsertByCountPerm(x, s[..n]);
      forall i | 0 <= i < |t|
        ensures Count(t[i]) >= Count(l)
      {
        assert t[i] in multiset(s[..n]) + multiset{x};
        if t[i] != x {
          var m :| 0 <= m < n && s[m] == t[i];
        }
      }
    }
  }

  lemma {:induction false} WithCountAppend(s: seq<Entry>, t: seq<Entry>, c: nat)
    ensures WithCount(s + t, c) == WithCount(s, c) + WithCount(t, c)
    decreases |t|
  {
    if t == [] {
      assert s + t == s;
    } else {
      var n := |t| - 1;
      var u := s + t;
      assert u[..|u| - 1] == s + t[..n];
      assert u[|u| - 1] == t[n];
      WithCountAppend(s, t[..n], c);
    }
  }

  lemma WithCountSnoc(t: seq<Entry>, l: Entry, c: nat)
    ensures WithCount(t + [l], c) == WithCount(t, c) + if Count(l) == c then [l] else []
  {
    assert (t + [l])[..|t|] == t;
  }

  lemma {:induction false} InsertByCountStable(x: Entry, s: seq<Entry>, c: nat)
    ensures WithCount(InsertByCount(x, s), c) == WithCount(s, c) + if Count(x) == c then [x] else []
    decreases |s|
  {
    if s == [] || Count(s[|s| - 1]) >= Count(x) {
      WithCountSnoc(s, x, c);
    } else {
      var n := |s| - 1;
      var l := s[n];
      var t := InsertByCount(x, s[..n]);
      InsertByCountStable(x, s[..n], c);
      assert InsertByCount(x, s) == t + [l];
      WithCountSnoc(t, l, c);
      LastSplit(s);
      WithCountSnoc(s[..n], l, c);
      var xs := if Count(x) == c then [x] else [];
      var ls := if Count(l) == c then [l] else [];
      assert xs == [] || ls == [];
      assert xs + ls == ls + xs;
      assert WithCount(t + [l], c) == WithCount(s[..n], c) + (xs + ls);
    }
  }


  /** The sort orders by count, from most to fewest, keeps every entry, and
      keeps entries of equal count in insertion order. */
  lemma SortByCountMeaning(es: seq<Entry>)
    ensures ByCount(SortByCount(es))
    ensures multiset(SortByCount(es)) == multiset(es)
    ensures forall c :: WithCount(SortByCount(es), c) == WithCount(es, c)
  {
    forall c
      ensures WithCount(SortByCount(es), c) == WithCount(es, c)
    {
      SortByCountStable(es, c);
    }
  }

  lemma {:induction false} SortByCountStable(es: seq<Entry>, c: nat)
    ensures WithCount(SortByCount(es), c) == WithCount(es, c)
  {
    if es != [] {
      var n := |es| - 1;
      SortByCountStable(es[..n], c);
      InsertByCountStable(es[n], SortByCount(es[..n]), c);
      LastSplit(es);
      WithCountSnoc(es[..n], es[n], c);
    }
  }


  /** `.slice(0, topN)` of the sorted entries. */
  function TopEntries(es: seq<Entry>, topN: nat): seq<Entry> {
    Take(SortByCount(es), topN)
  }

  /** The top entries are `topN` of the entries (or all of them), sorted by
      count, and none left out has a higher count than any kept. */
  lemma TopEntriesMeaning(es: seq<Entry>, topN: nat)
    ensures |TopEntries(es, topN)| == if topN < |es| then topN else |es|
    ensures ByCount(TopEntries(es, topN))
    ensures forall e :: e in TopEntries(es, topN) ==> e in es
    ensures forall e, t :: e in es && e !in TopEntries(es, topN) && t in TopEntries(es, topN) ==>
              Count(t) >= Count(e)
  {
    forall e | e in TopEntries(es, topN)
      ensures e in es
    {
      TopEntryFrom(es, topN, e);
    }
    forall e, t | e in es && e !in TopEntries(es, topN) && t in TopEntries(es, topN)
      ensures Count(t) >= Count(e)
    {
      TopEntryAbove(es, topN, e, t);
    }
  }

  lemma TopEntryFrom(es: seq<Entry>, topN: nat, e: Entry)
    requires e in TopEntries(es, topN)
    ensures e in es
  {
    assert e in multiset(SortByCount(es));
  }

  lemma TopEntryAbove(es: seq<Entry>, topN: nat, e: Entry, t: Entry)
    requires e in es && e !in TopEntries(es, topN) && t in TopEntries(es, topN)
    ensures Count(t) >= Count(e)
  {
    var s, top := SortByCount(es), TopEntries(es, topN);
    assert e in multiset(s);
    var j :| 0 <= j < |s| && s[j] == e;
    var i :| 0 <= i < |top| && top[i] == t;
    assert top == s[..|top|];
    assert j >= |top|;
  }


  /** `new Set(topNodes.map(n => n.name))`. */
  function NamesIn(top: seq<Entry>): (r: set<string>)
    ensures forall p :: p in r <==> exists e :: e in top && e.name == p
  {
    set e | e in top :: e.name
  }

  // ---------------------------------------------------------------------------
  // Edges: the loop over `edgeCount.entries()`

  /** One `{ a, b, w }` of `edges`. */
  datatype Edge = Edge(a: string, b: string, w: nat)

  /** What the loop body adds for `key` of weight `w`: nothing below
      `minWeight`; else the two halves of `key.split('|||')` when both are
      allowed (a missing second half is `undefined`, never allowed). */
  function KeyEdge(key: string, w: nat, minWeight: int, allowed: set<string>): seq<Edge> {
    if w < minWeight then []
    else
      var parts := SplitOn(key, "|||");
      if |parts| >= 2 && parts[0] in allowed && parts[1] in allowed then [Edge(parts[0], parts[1], w)] else []
  }

  /** `edges` after the loop over the keys `keys`. */
  function KeptEdges(keys: seq<string>, weight: map<string, nat>, minWeight: int, allowed: set<string>): (r: seq<Edge>)
    requires forall i :: 0 <= i < |keys| ==> keys[i] in weight
    ensures forall e :: e in r ==> e.w >= minWeight && e.a in allowed && e.b in allowed
  {
    if keys == [] then []
    else
      var k := keys[|keys| - 1];
      KeptEdges(keys[..|keys| - 1], weight, minWeight, allowed) + KeyEdge(k, weight[k], minWeight, allowed)
  }

  lemma {:induction false} KeptEdgesFrom(keys: seq<string>, weight: map<string, nat>, minWeight: int,
                                         allowed: set<string>, e: Edge)
    requires forall i :: 0 <= i < |keys| ==> keys[i] in weight
    requires e in KeptEdges(keys, weight, minWeight, allowed)
    ensures exists i :: 0 <= i < |keys| && e in KeyEdge(keys[i], weight[keys[i]], minWeight, allowed)
  {
    var n := |keys| - 1;
    if e in KeyEdge(keys[n], weight[keys[n]], minWeight, allowed) {
      assert 0 <= n < |keys|;
    } else {
      KeptEdgesFrom(keys[..n], weight, minWeight, allowed, e);
      var i :| 0 <= i < n && e in KeyEdge(keys[..n][i], weight[keys[..n][i]], minWeight, allowed);
      assert keys[..n][i] == keys[i];
    }
  }

  lemma {:induction false} KeptEdgesHas(keys: seq<string>, weight: map<string, nat>, minWeight: int,
                                        allowed: set<string>, e: Edge, i: nat)
    requires forall i :: 0 <= i < |keys| ==> keys[i] in weight
    requires i < |keys| && e in KeyEdge(keys[i], weight[keys[i]], minWeight, allowed)
    ensures e in KeptEdges(keys, weight, minWeight, allowed)
  {
    var n := |keys| - 1;
    var front := KeptEdges(keys[..n], weight, minWeight, allowed);
    var last := KeyEdge(keys[n], weight[keys[n]], minWeight, allowed);
    assert KeptEdges(keys, weight, minWeight, allowed) == front + last;
    if i < n {
      assert keys[..n][i] == keys[i];
      KeptEdgesHas(keys[..n], weight, minWeight, allowed, e, i);
      assert e in front;
    } else {
      assert e in last;
    }
  }

  /** An edge is kept exactly when some key yields it. */
  lemma KeptEdgesMember(keys: seq<string>, weight: map<string, nat>, minWeight: int,
                        allowed: set<string>, e: Edge)
    requires forall i :: 0 <= i < |keys| ==> keys[i] in weight
    ensures e in KeptEdges(keys, weight, minWeight, allowed)
            <==> exists i :: 0 <= i < |keys| && e in KeyEdge(keys[i], weight[keys[i]], minWeight, allowed)
  {
    if e in KeptEdges(keys, weight, minWeight, allowed) {
      KeptEdgesFrom(keys, weight, minWeight, allowed, e);
    }
    if exists i :: 0 <= i < |keys| && e in KeyEdge(keys[i], weight[keys[i]], minWeight, allowed) {
      var i :| 0 <= i < |keys| && e in KeyEdge(keys[i], weight[keys[i]], minWeight, allowed);
      KeptEdgesHas(keys, weight, minWeight, allowed, e, i);
    }
  }


  /** `for (const [key, w] of edgeCount.entries())`. */
  method FilterEdges(keys: seq<string>, weight: map<string, nat>, minWeight: int, allowed: set<string>)
    returns (edges: seq<Edge>)
    requires forall i :: 0 <= i < |keys| ==> keys[i] in weight
    ensures edges == KeptEdges(keys, weight, minWeight, allowed)
  {
    edges := [];
    for k := 0 to |keys|
      invariant edges == KeptEdges(keys[..k], weight, minWeight, allowed)
    {
      assert keys[..k + 1][..k] == keys[..k];
      var key := keys[k];
      var w := weight[key];
      if w < minWeight {
        continue;
      }
      var parts := SplitOn(key, "|||");
      if |parts| >= 2 && parts[0] in allowed && parts[1] in allowed {
        edges := edges + [Edge(parts[0], parts[1], w)];
      }
    }
    assert keys[..|keys|] == keys;
  }

  /** The keys the tally lists are those it counts. */
  lemma TallyKeys(s: seq<string>)
    ensures forall i :: 0 <= i < |TallyOf(s).keys| ==> TallyOf(s).keys[i] in TallyOf(s).counts
  {
    TallyMeaning(s);
  }

  // ---------------------------------------------------------------------------
  // The graph

  /** The inventors with no `|`: every name a taking-part record names is
      well formed. */
  lemma {:induction false} NamedWellFormed(rows: seq<Row>, p: string)
    requires RecordsWith(rows, p) > 0
    ensures WellFormed(p) && NoBar(p)
  {
    var n := |rows| - 1;
    if RecordsWith(rows[..n], p) > 0 {
      NamedWellFormed(rows[..n], p);
    } else {
      NameOfRecord(rows[n], p);
    }
  }

  /** `topNodes` for the sampled rows. */
  function TopOf(rows: seq<Row>, topN: nat): (r: seq<Entry>)
    ensures |r| <= topN && ByCount(r)
  {
    NodeTallyOrder(NamingStream(rows));
    TopEntries(Entries(NodeTally(NamingStream(rows))), topN)
  }

  /** `edges` for the sampled rows and the allowed names. */
  function EdgesOf(rows: seq<Row>, minWeight: int, allowed: set<string>): (r: seq<Edge>)
    ensures forall e :: e in r ==> e.w >= minWeight && e.a in allowed && e.b in allowed
  {
    TallyKeys(PairStream(rows));
    KeptEdges(TallyOf(PairStream(rows)).keys, TallyOf(PairStream(rows)).counts, minWeight, allowed)
  }

  lemma NamedInOrder(rows: seq<Row>, p: string)
    requires RecordsWith(rows, p) > 0
    ensures p in NodeTally(NamingStream(rows)).order
  {
    NamingStreamMeaning(rows, p);
    NodeTallyOfRows(rows);
    var ns := NameStream(rows);
    assert multiset(ns)[p] > 0;
    var k :| 0 <= k < |ns| && ns[k] == p;
    assert ns[k] in Dedup(ns);
  }

  /** The nodes: at most `topN` inventors, sorted by count, each named by
      a taking-part record and holding the number of such records and the
      first five different `pub_no` of them. */
  lemma TopNodes(rows: seq<Row>, topN: nat)
    ensures |TopOf(rows, topN)| <= topN
    ensures ByCount(TopOf(rows, topN))
    ensures forall e :: e in TopOf(rows, topN) ==>
              RecordsWith(rows, e.name) > 0
              && e.data == NodeData(RecordsWith(rows, e.name), FirstPubs(PubStream(rows, e.name)))
  {
    var c := NodeTally(NamingStream(rows));
    NodeTallyOrder(NamingStream(rows));
    NodeTallyOfRows(rows);
    var es := Entries(c);
    TopEntriesMeaning(es, topN);
    forall e | e in TopEntries(es, topN)
      ensures RecordsWith(rows, e.name) > 0
      ensures e.data == NodeData(RecordsWith(rows, e.name), FirstPubs(PubStream(rows, e.name)))
    {
      var i :| 0 <= i < |es| && es[i] == e;
    }
  }

  /** No inventor left out of the nodes was named by more taking-part
      records than one kept. */
  lemma TopNodesRank(rows: seq<Row>, topN: nat, p: string, e: Entry)
    requires RecordsWith(rows, p) > 0 && p !in NamesIn(TopOf(rows, topN)) && e in TopOf(rows, topN)
    ensures RecordsWith(rows, p) <= RecordsWith(rows, e.name)
  {
    var c := NodeTally(NamingStream(rows));
    NodeTallyOrder(NamingStream(rows));
    var es := Entries(c);
    var top := TopOf(rows, topN);
    assert top == TopEntries(es, topN);
    var i := PlaceOfName(rows, p);
    var x := es[i];
    assert x in es && x.name == p && Count(x) == RecordsWith(rows, p);
    assert x !in top;
    TopEntriesMeaning(es, topN);
    assert Count(e) >= Count(x);
    TopNodes(rows, topN);
    assert Count(e) == RecordsWith(rows, e.name);
  }

  /** A named inventor has a place in the tally's order, and the tally
      counts the records naming them. */
  lemma PlaceOfName(rows: seq<Row>, p: string) returns (i: nat)
    requires RecordsWith(rows, p) > 0
    ensures var c := NodeTally(NamingStream(rows));
            i < |c.order| && c.order[i] == p && p in c.data && c.data[p].count == RecordsWith(rows, p)
  {
    var c := NodeTally(NamingStream(rows));
    NamedInOrder(rows, p);
    NodeTallyOfRows(rows);
    i :| 0 <= i < |c.order| && c.order[i] == p;
  }

  /** What one key of `edgeCount` yields. */
  lemma KeyEdgeOf(rows: seq<Row>, k: string, minWeight: int, allowed: set<string>, e: Edge)
    requires k in TallyOf(PairStream(rows)).counts
    requires e in KeyEdge(k, TallyOf(PairStream(rows)).counts[k], minWeight, allowed)
    ensures e.a != e.b && e.a in allowed && e.b in allowed
    ensures SplitOn(PairKey(e.a, e.b), "|||") == [e.a, e.b]
    ensures e.w == RecordsWithBoth(rows, e.a, e.b) && e.w >= minWeight
    ensures e.w <= RecordsWith(rows, e.a) && e.w <= RecordsWith(rows, e.b)
  {
    var a, b := EdgeOfKey(rows, k);
    RecordsWithBothAtMost(rows, a, b);
    assert e == Edge(a, b, TallyOf(PairStream(rows)).counts[k]);
  }

  /** Every edge joins two different allowed inventors, in `key.split`
      order, and weighs the number of taking-part records naming both,
      which is at least `minWeight` and at most either inventor's count. */
  lemma EdgesSound(rows: seq<Row>, minWeight: int, allowed: set<string>, e: Edge)
    requires e in EdgesOf(rows, minWeight, allowed)
    ensures e.a != e.b && e.a in allowed && e.b in allowed
    ensures SplitOn(PairKey(e.a, e.b), "|||") == [e.a, e.b]
    ensures e.w == RecordsWithBoth(rows, e.a, e.b) && e.w >= minWeight
    ensures e.w <= RecordsWith(rows, e.a) && e.w <= RecordsWith(rows, e.b)
  {
    var t := TallyOf(PairStream(rows));
    TallyKeys(PairStream(rows));
    KeptEdgesMember(t.keys, t.counts, minWeight, allowed, e);
    var i :| 0 <= i < |t.keys| && e in KeyEdge(t.keys[i], t.counts[t.keys[i]], minWeight, allowed);
    KeyEdgeOf(rows, t.keys[i], minWeight, allowed, e);
  }

  /** The key of a pair named together by some taking-part record yields
      the pair's edge when both are allowed and the weight is enough. */
  lemma PairKeyEdge(rows: seq<Row>, minWeight: int, allowed: set<string>, a: string, b: string)
    returns (k: string, e: Edge)
    requires minWeight >= 1 && a != b && a in allowed && b in allowed
    requires RecordsWithBoth(rows, a, b) >= minWeight
    ensures k in TallyOf(PairStream(rows)).counts
    ensures e in KeyEdge(k, TallyOf(PairStream(rows)).counts[k], minWeight, allowed)
    ensures e.w == RecordsWithBoth(rows, a, b) && ((e.a == a && e.b == b) || (e.a == b && e.b == a))
  {
    var t := TallyOf(PairStream(rows));
    RecordsWithBothAtMost(rows, a, b);
    NamedWellFormed(rows, a);
    NamedWellFormed(rows, b);
    k := PairKey(a, b);
    PairTallyAt(rows, a, b);
    assert k in t.counts && t.counts[k] == RecordsWithBoth(rows, a, b);
    e := PairEdge(a, b, t.counts[k], minWeight, allowed);
  }

  /** The key of an allowed pair with enough weight yields the pair's edge. */
  lemma PairEdge(a: string, b: string, w: nat, minWeight: int, allowed: set<string>) returns (e: Edge)
    requires NoBar(a) && NoBar(b) && a in allowed && b in allowed && w >= minWeight
    ensures KeyEdge(PairKey(a, b), w, minWeight, allowed) == [e]
    ensures e.w == w && ((e.a == a && e.b == b) || (e.a == b && e.b == a))
  {
    PairKeySplit(a, b);
    if Less(a, b) {
      e := Edge(a, b, w);
    } else {
      e := Edge(b, a, w);
    }
  }

  /** With `minWeight` at least 1, every two different allowed inventors
      named together by at least `minWeight` taking-part records are
      joined by an edge carrying that number. */
  lemma EdgesComplete(rows: seq<Row>, minWeight: int, allowed: set<string>, a: string, b: string)
    requires minWeight >= 1 && a != b && a in allowed && b in allowed
    requires RecordsWithBoth(rows, a, b) >= minWeight
    ensures exists e :: e in EdgesOf(rows, minWeight, allowed) && e.w == RecordsWithBoth(rows, a, b)
                        && ((e.a == a && e.b == b) || (e.a == b && e.b == a))
  {
    var s := PairStream(rows);
    var k, e := PairKeyEdge(rows, minWeight, allowed, a, b);
    var i := KeyPosition(s, k);
    TallyKeys(s);
    KeptEdgesMember(TallyOf(s).keys, TallyOf(s).counts, minWeight, allowed, e);
    assert e in EdgesOf(rows, minWeight, allowed);
  }

  /** Where a counted key sits in the tally's key order. */
  lemma KeyPosition(s: seq<string>, k: string) returns (i: nat)
    requires k in TallyOf(s).counts
    ensures i < |TallyOf(s).keys| && TallyOf(s).keys[i] == k
  {
    TallyMeaning(s);
    i := FirstIndex(Dedup(s), k);
  }

  // ---------------------------------------------------------------------------
  // The response

  /** One element of `nodes` in the JSON response. */
  datatype GraphNode = GraphNode(id: string, nodeLabel: string, kind: string, count: nat, pubs: seq<string>)

  /** One element of `edges` in the JSON response. */
  datatype GraphRel = GraphRel(source: string, target: string, rel: string, weight: nat)

  function NodeOut(e: Entry): GraphNode {
    GraphNode("inv:" + e.name, e.name, "inventor", e.data.count, e.data.pubs)
  }

  function RelOut(e: Edge): GraphRel {
    GraphRel("inv:" + e.a, "inv:" + e.b, "COINVENT_WITH", e.w)
  }

  function NodesOut(top: seq<Entry>): (r: seq<GraphNode>)
    ensures |r| == |top| && forall i :: 0 <= i < |top| ==> r[i] == NodeOut(top[i])
  {
    seq(|top|, i requires 0 <= i < |top| => NodeOut(top[i]))
  }

  function RelsOut(edges: seq<Edge>): (r: seq<GraphRel>)
    ensures |r| == |edges| && forall i :: 0 <= i < |edges| ==> r[i] == RelOut(edges[i])
  {
    seq(|edges|, i requires 0 <= i < |edges| => RelOut(edges[i]))
  }

  /** Every relation of the response runs between two different nodes of
      the response. */
  lemma NoDanglingRels(rows: seq<Row>, topN: nat, minWeight: int, r: GraphRel)
    requires r in RelsOut(EdgesOf(rows, minWeight, NamesIn(TopOf(rows, topN))))
    ensures r.source != r.target
    ensures exists n :: n in NodesOut(TopOf(rows, topN)) && n.id == r.source
    ensures exists n :: n in NodesOut(TopOf(rows, topN)) && n.id == r.target
  {
    var top := TopOf(rows, topN);
    var edges := EdgesOf(rows, minWeight, NamesIn(top));
    var i :| 0 <= i < |edges| && RelsOut(edges)[i] == r;
    var e := edges[i];
    EdgesSound(rows, minWeight, NamesIn(top), e);
    assert ("inv:" + e.a)[4..] == e.a && ("inv:" + e.b)[4..] == e.b;
    NodeIdIn(top, e.a);
    NodeIdIn(top, e.b);
  }

  /** A kept name has its node in the response. */
  lemma NodeIdIn(top: seq<Entry>, x: string)
    requires x in NamesIn(top)
    ensures exists n :: n in NodesOut(top) && n.id == "inv:" + x
  {
    var e :| e in top && e.name == x;
    var j :| 0 <= j < |top| && top[j] == e;
    assert NodesOut(top)[j].id == "inv:" + x;
  }


  /** `Math.max(10, Math.min(parseInt(String(req.query.topN || '100'), 10) || 100, 400))`. */
  function TopN(raw: Value): (n: nat)
    ensures 10 <= n <= 400
    ensures !Truthy(raw) ==> n == 100
    ensures Truthy(raw) ==> n == Paging.Saturate(ParseInt(ToStr(raw)), 100, 10, 400)
  {
    Paging.DefaultsParse();
    Paging.Clamp(OrElse(raw, Str("100")), 100, 10, 400)
  }

  /** `Math.max(1, Math.min(parseInt(String(req.query.minWeight || '1'), 10) || 1, 1000))`. */
  function MinWeight(raw: Value): (n: nat)
    ensures 1 <= n <= 1000
    ensures !Truthy(raw) ==> n == 1
    ensures Truthy(raw) ==> n == Paging.Saturate(ParseInt(ToStr(raw)), 1, 1, 1000)
  {
    Paging.DefaultsParse();
    Paging.Clamp(OrElse(raw, Str("1")), 1, 1, 1000)
  }

  /** `Math.max(100, Math.min(parseInt(String(req.query.sampleLimit || '5000'), 10) || 5000, 20000))`. */
  function SampleLimit(raw: Value): (n: nat)
    ensures 100 <= n <= 20000
    ensures !Truthy(raw) ==> n == 5000
    ensures Truthy(raw) ==> n == Paging.Saturate(ParseInt(ToStr(raw)), 5000, 100, 20000)
  {
    Paging.DefaultsParse();
    Paging.Clamp(OrElse(raw, Str("5000")), 5000, 100, 20000)
  }

  /** The query of the sample: the flat filter and the `:lim` placeholder. */
  function SampleSql(whereSql: string): string {
    "SELECT pub_no, inventors FROM patents " + whereSql + " LIMIT :lim"
  }

  /** `GET /api/graph/inventor_collab`: the sample query and its
      parameters, and, for the rows the database returns for it, the
      response's nodes and edges. */
  method InventorCollab(q: FlatFilter.FlatQuery, topNRaw: Value, minWeightRaw: Value, sampleLimitRaw: Value,
                        rows: seq<Row>)
    returns (sql: string, params: map<string, SqlParam>, nodes: seq<GraphNode>, rels: seq<GraphRel>)
    ensures sql == SampleSql(FlatFilter.WhereOf(FlatFilter.Active(q)))
    ensures params == FlatFilter.Bindings(q, FlatFilter.Active(q))["lim" := PNum(SampleLimit(sampleLimitRaw))]
    ensures nodes == NodesOut(TopOf(rows, TopN(topNRaw)))
    ensures rels == RelsOut(EdgesOf(rows, MinWeight(minWeightRaw), NamesIn(TopOf(rows, TopN(topNRaw)))))
  {
    var topN := TopN(topNRaw);
    var minWeight := MinWeight(minWeightRaw);
    var sampleLimit := SampleLimit(sampleLimitRaw);
    var whereSql, filterParams := FlatFilter.BuildWhereFromQuery(q);
    sql := SampleSql(whereSql);
    params := filterParams["lim" := PNum(sampleLimit)];
    var order, data, keys, weight := Aggregate(rows);
    NodeTallyOrder(NamingStream(rows));
    var top := TopEntries(Entries(Nodes(order, data)), topN);
    var allowed := NamesIn(top);
    TallyKeys(PairStream(rows));
    var edges := FilterEdges(keys, weight, minWeight, allowed);
    nodes := NodesOut(top);
    rels := RelsOut(edges);
  }
}
