/** String operations the handlers build from regular expressions:
    `s.split(/[D]+/)`, `s.replace(/[E]+/g, rep)` and `parts.join(sep)`,
    with the delimiter classes given as explicit character sets. */
module Text {
  import opened Js

  predicate NoneIn(s: string, D: set<char>) {
    forall i :: 0 <= i < |s| ==> s[i] !in D
  }

  /** Length of the run of characters outside `D` at the start of `s`. */
  function KeepRun(s: string, D: set<char>): (k: nat)
    ensures k <= |s|
    ensures forall i :: 0 <= i < k ==> s[i] !in D
    ensures k < |s| ==> s[k] in D
  {
    if s == [] || s[0] in D then 0 else 1 + KeepRun(s[1..], D)
  }

  /** Length of the run of characters of `D` at the start of `s`. */
  function DelimRun(s: string, D: set<char>): (k: nat)
    ensures k <= |s|
    ensures forall i :: 0 <= i < k ==> s[i] in D
    ensures k < |s| ==> s[k] !in D
    ensures |s| > 0 && s[0] in D ==> k >= 1
  {
    if s == [] || s[0] !in D then 0 else 1 + DelimRun(s[1..], D)
  }

  /** The two properties of KeepRun determine it. */
  lemma KeepRunUnique(s: string, D: set<char>, k: nat)
    requires k <= |s|
    requires forall i :: 0 <= i < k ==> s[i] !in D
    requires k < |s| ==> s[k] in D
    ensures KeepRun(s, D) == k
  {
  }

  /** `s.split(/[D]+/)`: the pieces between maximal runs of delimiters, with an
      empty first (last) piece when `s` starts (ends) with a delimiter. */
  function SplitRuns(s: string, D: set<char>): (r: seq<string>)
    ensures |r| >= 1
    ensures forall i :: 0 <= i < |r| ==> NoneIn(r[i], D)
    decreases |s|
  {
    var k := KeepRun(s, D);
    if k == |s| then [s]
    else
      var d := DelimRun(s[k..], D);
      [s[..k]] + SplitRuns(s[k + d..], D)
  }

  /** `.filter(Boolean)` on strings: drop the empty ones. */
  function NonEmpty(ps: seq<string>): (r: seq<string>)
    ensures forall i :: 0 <= i < |r| ==> r[i] != "" && r[i] in ps
    ensures forall i :: 0 <= i < |ps| && ps[i] != "" ==> ps[i] in r
    ensures |r| <= |ps|
  {
    if ps == [] then [] else (if ps[0] == "" then [] else [ps[0]]) + NonEmpty(ps[1..])
  }

  /** `.map(s => s.trim())`. */
  function TrimEach(ps: seq<string>): (r: seq<string>)
    ensures |r| == |ps|
    ensures forall i :: 0 <= i < |ps| ==> r[i] == Trim(ps[i])
  {
    seq(|ps|, i requires 0 <= i < |ps| => Trim(ps[i]))
  }

  /** `s.split(/[D]+/).map(s => s.trim()).filter(Boolean)`. */
  function SplitTrimFilter(s: string, D: set<char>): seq<string> {
    NonEmpty(TrimEach(SplitRuns(s, D)))
  }

  /** Reference definition: the maximal non-empty runs of characters outside `D`. */
  function Tokens(s: string, D: set<char>): (r: seq<string>)
    ensures forall i :: 0 <= i < |r| ==> r[i] != "" && NoneIn(r[i], D)
    decreases |s|
  {
    if s == [] then []
    else if s[0] in D then Tokens(s[1..], D)
    else
      var k := KeepRun(s, D);
      [s[..k]] + Tokens(s[k..], D)
  }

  /** Leading delimiters do not change the tokens. */
  lemma {:induction false} TokensDropDelims(s: string, D: set<char>, m: nat)
    requires m <= |s|
    requires forall i :: 0 <= i < m ==> s[i] in D
    ensures Tokens(s, D) == Tokens(s[m..], D)
  {
    if m > 0 {
      assert s[1..][m - 1..] == s[m..];
      TokensDropDelims(s[1..], D, m - 1);
    }
  }

  /** A token followed by a delimiter (or nothing) is split off whole. */
  lemma TokensPrefix(x: string, y: string, D: set<char>)
    requires x != "" && NoneIn(x, D)
    requires y == [] || y[0] in D
    ensures Tokens(x + y, D) == [x] + Tokens(y, D)
  {
    var s := x + y;
    KeepRunUnique(s, D, |x|);
    assert s[..|x|] == x && s[|x|..] == y;
  }

  /** The JS chain splits into exactly the reference tokens, whenever all white
      space is among the delimiters (so that trimming a piece changes nothing). */
  lemma {:induction false} SplitTrimFilterIsTokens(s: string, D: set<char>)
    requires Spaces <= D
    ensures SplitTrimFilter(s, D) == Tokens(s, D)
  {
    var ps := SplitRuns(s, D);
    assert TrimEach(ps) == ps;
    SplitIsTokens(s, D);
  }

  lemma {:induction false} SplitIsTokens(s: string, D: set<char>)
    ensures NonEmpty(SplitRuns(s, D)) == Tokens(s, D)
    decreases |s|
  {
    var k := KeepRun(s, D);
    if k == |s| {
      if s != [] {
        assert s[..k] == s && s[k..] == [];
      }
    } else {
      var d := DelimRun(s[k..], D);
      var rest := s[k + d..];
      assert SplitRuns(s, D) == [s[..k]] + SplitRuns(rest, D);
      assert ([s[..k]] + SplitRuns(rest, D))[1..] == SplitRuns(rest, D);
      SplitIsTokens(rest, D);
      assert s[k..][d..] == rest;
      TokensDropDelims(s[k..], D, d);
      if k == 0 {
        assert s[k..] == s;
      } else {
        assert s[0] !in D;
      }
    }
  }

  /** Two delimiter sets that agree on the characters of `s` give the same tokens. */
  lemma {:induction false} TokensSameDelims(s: string, D1: set<char>, D2: set<char>)
    requires forall i :: 0 <= i < |s| ==> (s[i] in D1 <==> s[i] in D2)
    ensures Tokens(s, D1) == Tokens(s, D2)
    decreases |s|
  {
    if s != [] {
      if s[0] in D1 {
        TokensSameDelims(s[1..], D1, D2);
      } else {
        var k := KeepRun(s, D1);
        KeepRunUnique(s, D2, k);
        TokensSameDelims(s[k..], D1, D2);
      }
    }
  }

  /** A trailing delimiter does not change the tokens. */
  lemma {:induction false} TokensAppendDelim(s: string, c: char, D: set<char>)
    requires c in D
    ensures Tokens(s + [c], D) == Tokens(s, D)
    decreases |s|
  {
    var t := s + [c];
    if s == [] {
      assert t[1..] == [];
    } else if s[0] in D {
      assert t[1..] == s[1..] + [c];
      TokensAppendDelim(s[1..], c, D);
    } else {
      var k := KeepRun(s, D);
      KeepRunUnique(t, D, k);
      assert t[..k] == s[..k] && t[k..] == s[k..] + [c];
      TokensAppendDelim(s[k..], c, D);
    }
  }

  // ---------------------------------------------------------------------------
  // replace(/[E]+/g, rep)

  /** `s.replace(/[E]+/g, rep)`: every maximal run of characters of `E` becomes `rep`. */
  function ReplaceRuns(s: string, E: set<char>, rep: string): (r: string)
    ensures NoneIn(rep, E) ==> NoneIn(r, E)
    ensures forall i :: 0 <= i < |r| ==> r[i] in rep || r[i] !in E
    ensures |s| > 0 && s[0] !in E ==> |r| > 0 && r[0] == s[0]
    ensures |rep| == 1 && rep[0] in E ==>
              forall i :: 0 <= i < |r| - 1 ==> !(r[i] in E && r[i + 1] in E)
    decreases |s|
  {
    if s == [] then []
    else if s[0] in E then
      var d := DelimRun(s, E);
      rep + ReplaceRuns(s[d..], E, rep)
    else [s[0]] + ReplaceRuns(s[1..], E, rep)
  }

  /** A character class absent from both the input and the replacement stays absent. */
  lemma {:induction false} ReplaceRunsKeepsOut(s: string, E: set<char>, rep: string, F: set<char>)
    requires NoneIn(s, F) && NoneIn(rep, F)
    ensures NoneIn(ReplaceRuns(s, E, rep), F)
    decreases |s|
  {
    if s != [] {
      if s[0] in E {
        ReplaceRunsKeepsOut(s[DelimRun(s, E)..], E, rep, F);
      } else {
        ReplaceRunsKeepsOut(s[1..], E, rep, F);
      }
    }
  }

  /** Replacing delimiter runs by one delimiter keeps the tokens. */
  lemma {:induction false} ReplaceRunsKeepsTokens(s: string, E: set<char>, c: char, D: set<char>)
    requires E <= D && c in D
    ensures Tokens(ReplaceRuns(s, E, [c]), D) == Tokens(s, D)
    decreases |s|
  {
    var r := ReplaceRuns(s, E, [c]);
    if s == [] {
    } else if s[0] in E {
      var d := DelimRun(s, E);
      assert r == [c] + ReplaceRuns(s[d..], E, [c]);
      assert r[1..] == ReplaceRuns(s[d..], E, [c]);
      ReplaceRunsKeepsTokens(s[d..], E, c, D);
      TokensDropDelims(s, D, d);
    } else if s[0] in D {
      assert r[1..] == ReplaceRuns(s[1..], E, [c]);
      ReplaceRunsKeepsTokens(s[1..], E, c, D);
    } else {
      var k := KeepRun(s, D);
      ReplaceRunsCopies(s, E, [c], k);
      var y := ReplaceRuns(s[k..], E, [c]);
      assert r == s[..k] + y;
      if k < |s| {
        assert s[k..][0] == s[k];
      }
      TokensPrefix(s[..k], y, D);
      ReplaceRunsKeepsTokens(s[k..], E, c, D);
      assert s[..k] != "" by { assert s[..k][0] == s[0]; }
    }
  }

  /** A prefix free of `E` is copied unchanged. */
  lemma {:induction false} ReplaceRunsCopies(s: string, E: set<char>, rep: string, k: nat)
    requires k <= |s| && NoneIn(s[..k], E)
    ensures ReplaceRuns(s, E, rep) == s[..k] + ReplaceRuns(s[k..], E, rep)
  {
    if k > 0 {
      assert s[0] == s[..k][0];
      assert s[1..][..k - 1] == s[..k][1..];
      ReplaceRunsCopies(s[1..], E, rep, k - 1);
      assert s[1..][k - 1..] == s[k..];
      assert [s[0]] + s[1..][..k - 1] == s[..k];
    }
  }

  /** `s.replace(/[E]+/g, rep)` is `s.split(/[E]+/).join(rep)`: the pieces
      between the maximal runs of `E`, in order, with `rep` in place of each
      run. */
  lemma {:induction false} ReplaceRunsIsSplitJoin(s: string, E: set<char>, rep: string)
    ensures ReplaceRuns(s, E, rep) == Join(SplitRuns(s, E), rep)
    decreases |s|
  {
    var k := KeepRun(s, E);
    ReplaceRunsCopies(s, E, rep, k);
    if k == |s| {
      assert s[..k] == s && s[k..] == [];
    } else {
      var t := s[k..];
      var d := DelimRun(t, E);
      assert s[k + d..] == t[d..];
      SplitRunsStep(s, E);
      var rest := SplitRuns(t[d..], E);
      JoinCons(s[..k], rest, rep);
      assert ReplaceRuns(t, E, rep) == rep + ReplaceRuns(t[d..], E, rep);
      ReplaceRunsIsSplitJoin(t[d..], E, rep);
    }
  }

  /** Splitting at the first run of delimiters. */
  lemma SplitRunsStep(s: string, D: set<char>)
    requires KeepRun(s, D) < |s|
    ensures var k := KeepRun(s, D);
            SplitRuns(s, D) == [s[..k]] + SplitRuns(s[k..][DelimRun(s[k..], D)..], D)
  {
    var k := KeepRun(s, D);
    assert s[k + DelimRun(s[k..], D)..] == s[k..][DelimRun(s[k..], D)..];
  }

  /** Joining a part in front of at least one more. */
  lemma JoinCons(p: string, rest: seq<string>, sep: string)
    requires rest != []
    ensures Join([p] + rest, sep) == p + (sep + Join(rest, sep))
  {
    assert ([p] + rest)[1..] == rest;
  }

  /** A string with no character of `E` is left as it is. */
  lemma {:induction false} ReplaceRunsIdentity(s: string, E: set<char>, rep: string)
    requires NoneIn(s, E)
    ensures ReplaceRuns(s, E, rep) == s
  {
    ReplaceRunsCopies(s, E, rep, |s|);
    assert s[..|s|] == s;
  }

  /** A string whose `E` characters are single copies of `c` is left as it is
      by replacing each run of `E` with `c`. */
  lemma {:induction false} ReplaceRunsSingles(s: string, E: set<char>, c: char)
    requires forall i :: 0 <= i < |s| ==> s[i] in E ==> s[i] == c
    requires forall i :: 0 <= i < |s| - 1 ==> !(s[i] in E && s[i + 1] in E)
    ensures ReplaceRuns(s, E, [c]) == s
    decreases |s|
  {
    if s != [] {
      if s[0] in E {
        var d := DelimRun(s, E);
        assert |s| > 1 ==> s[1] !in E;
        assert d == 1;
      }
      ReplaceRunsSingles(s[1..], E, c);
      assert [s[0]] + s[1..] == s;
    }
  }

  // ---------------------------------------------------------------------------
  // join

  /** `parts.join(sep)`. */
  function Join(parts: seq<string>, sep: string): string {
    if parts == [] then ""
    else if |parts| == 1 then parts[0]
    else parts[0] + sep + Join(parts[1..], sep)
  }

  /** Joining non-empty, delimiter-free parts with one delimiter and splitting
      again gives back the parts. */
  lemma {:induction false} TokensOfJoin(parts: seq<string>, c: char, D: set<char>)
    requires c in D
    requires forall i :: 0 <= i < |parts| ==> parts[i] != "" && NoneIn(parts[i], D)
    ensures Tokens(Join(parts, [c]), D) == parts
  {
    if |parts| == 1 {
      TokensPrefix(parts[0], [], D);
      assert parts[0] + [] == parts[0];
    } else if |parts| > 1 {
      var rest := Join(parts[1..], [c]);
      assert parts[0] + [c] + rest == parts[0] + ([c] + rest);
      TokensPrefix(parts[0], [c] + rest, D);
      assert ([c] + rest)[1..] == rest;
      TokensOfJoin(parts[1..], c, D);
      assert [parts[0]] + parts[1..] == parts;
    }
  }

  // ---------------------------------------------------------------------------
  // search

  /** `sub` occurs in `s` at position `i`. */
  predicate OccursAt(s: string, sub: string, i: nat) {
    i + |sub| <= |s| && s[i..i + |sub|] == sub
  }

  /** `s.includes(sub)`. */
  predicate Occurs(s: string, sub: string) {
    exists j :: 0 <= j <= |s| && OccursAt(s, sub, j)
  }

  lemma OccursBetween(pre: string, sub: string, post: string)
    ensures Occurs(pre + sub + post, sub)
  {
    assert OccursAt(pre + sub + post, sub, |pre|) by {
      assert (pre + sub + post)[|pre|..|pre| + |sub|] == sub;
    }
  }

  lemma OccursWithin(pre: string, s: string, post: string, sub: string)
    requires Occurs(s, sub)
    ensures Occurs(pre + s + post, sub)
  {
    var j :| 0 <= j <= |s| && OccursAt(s, sub, j);
    assert OccursAt(pre + s + post, sub, |pre| + j) by {
      assert (pre + s + post)[|pre| + j..|pre| + j + |sub|] == s[j..j + |sub|];
    }
  }

  /** Every part shows up in the joined text. */
  lemma {:induction false} JoinHasPart(parts: seq<string>, sep: string, i: nat)
    requires i < |parts|
    ensures Occurs(Join(parts, sep), parts[i])
    decreases i
  {
    if |parts| == 1 {
      OccursBetween("", parts[0], "");
      assert "" + parts[0] + "" == parts[0];
    } else if i == 0 {
      OccursBetween("", parts[0], sep + Join(parts[1..], sep));
      assert "" + parts[0] + (sep + Join(parts[1..], sep)) == Join(parts, sep);
    } else {
      JoinHasPart(parts[1..], sep, i - 1);
      OccursWithin(parts[0] + sep, Join(parts[1..], sep), "", parts[i]);
      assert parts[0] + sep + Join(parts[1..], sep) + "" == Join(parts, sep);
    }
  }

  /** Two neighbouring parts show up in the joined text with the separator
      between them. */
  lemma {:induction false} JoinHasSeam(parts: seq<string>, sep: string, i: nat)
    requires i + 1 < |parts|
    ensures Occurs(Join(parts, sep), parts[i] + sep + parts[i + 1])
    decreases i
  {
    var rest := parts[1..];
    if i == 0 {
      var tail := if |rest| == 1 then "" else sep + Join(rest[1..], sep);
      assert Join(rest, sep) == rest[0] + tail;
      assert Join(parts, sep) == "" + (parts[0] + sep + parts[1]) + tail;
      OccursBetween("", parts[0] + sep + parts[1], tail);
    } else {
      JoinHasSeam(rest, sep, i - 1);
      OccursWithin(parts[0] + sep, Join(rest, sep), "", parts[i] + sep + parts[i + 1]);
      assert parts[0] + sep + Join(rest, sep) + "" == Join(parts, sep);
    }
  }

  /** `s.indexOf(sub, from)`, with None for -1. */
  function IndexOf(s: string, sub: string, from: nat): (r: Option<nat>)
    ensures r.Some? ==> from <= r.value && OccursAt(s, sub, r.value)
    ensures r.Some? ==> forall i :: from <= i < r.value ==> !OccursAt(s, sub, i)
    ensures r.None? ==> forall i :: from <= i ==> !OccursAt(s, sub, i)
    decreases |s| - from
  {
    if from + |sub| > |s| then None
    else if s[from..from + |sub|] == sub then Some(from)
    else IndexOf(s, sub, from + 1)
  }

  // ---------------------------------------------------------------------------
  // s.split(sep) for a literal separator, and string comparison

  /** `s.split(sep)` for a non-empty literal separator: the pieces between
      the occurrences of `sep` found from left to right. */
  function SplitOn(s: string, sep: string): (r: seq<string>)
    requires |sep| > 0
    ensures |r| >= 1
    decreases |s|
  {
    match IndexOf(s, sep, 0)
    case None => [s]
    case Some(i) => [s[..i]] + SplitOn(s[i + |sep|..], sep)
  }

  /** Joining two pieces that lack the separator's first character and
      splitting again gives the two pieces back. */
  lemma SplitOnPair(a: string, b: string, sep: string)
    requires |sep| > 0 && NoneIn(a, {sep[0]}) && NoneIn(b, {sep[0]})
    ensures SplitOn(a + sep + b, sep) == [a, b]
  {
    var k := a + sep + b;
    forall i | 0 <= i < |a|
      ensures !OccursAt(k, sep, i)
    {
      assert k[i] == a[i];
    }
    assert k[|a|..|a| + |sep|] == sep;
    assert OccursAt(k, sep, |a|);
    assert IndexOf(k, sep, 0) == Some(|a|);
    assert k[..|a|] == a && k[|a| + |sep|..] == b;
    forall i: nat | i + |sep| <= |b|
      ensures !OccursAt(b, sep, i)
    {
      assert b[i..i + |sep|][0] == b[i];
    }
  }

  /** Lexicographic order on code units, a proper prefix before its extensions. */
  predicate UnitsLess(a: seq<int>, b: seq<int>) {
    if a == [] then b != []
    else if b == [] then false
    else if a[0] != b[0] then a[0] < b[0]
    else UnitsLess(a[1..], b[1..])
  }

  /** `a < b` on strings, as JavaScript compares them: at the first
      character where they differ, by the two characters' UTF-16 code units;
      a proper prefix comes first. */
  predicate Less(a: string, b: string) {
    if a == [] then b != []
    else if b == [] then false
    else if a[0] != b[0] then UnitsLess(CodeUnits(a[0]), CodeUnits(b[0]))
    else Less(a[1..], b[1..])
  }

  lemma {:induction false} UnitsLessTotal(a: seq<int>, b: seq<int>)
    ensures !UnitsLess(a, a)
    ensures a != b ==> (UnitsLess(a, b) <==> !UnitsLess(b, a))
    decreases |a|
  {
    if a != [] {
      UnitsLessTotal(a[1..], a[1..]);
      if b != [] && a[0] == b[0] {
        UnitsLessTotal(a[1..], b[1..]);
        assert a != b ==> a[1..] != b[1..] by {
          if a[1..] == b[1..] {
            assert a == [a[0]] + a[1..] && b == [b[0]] + b[1..];
          }
        }
      }
    }
  }

  /** A common prefix does not change the order. */
  lemma {:induction false} UnitsLessAfter(p: seq<int>, x: seq<int>, y: seq<int>)
    ensures UnitsLess(p + x, p + y) == UnitsLess(x, y)
    decreases |p|
  {
    if p == [] {
      assert p + x == x && p + y == y;
    } else {
      assert (p + x)[1..] == p[1..] + x && (p + y)[1..] == p[1..] + y;
      UnitsLessAfter(p[1..], x, y);
    }
  }

  /** Once two unit sequences differ, what follows them does not matter. */
  lemma {:induction false} UnitsLessAt(u: seq<int>, x: seq<int>, v: seq<int>, y: seq<int>, i: nat)
    requires i < |u| && i < |v| && u[i] != v[i]
    ensures UnitsLess(u + x, v + y) == UnitsLess(u, v)
    decreases i
  {
    if u[0] == v[0] {
      assert (u + x)[1..] == u[1..] + x && (v + y)[1..] == v[1..] + y;
      UnitsLessAt(u[1..], x, v[1..], y, i - 1);
    }
  }

  /** `Less` is the lexicographic order on the strings' UTF-16 code units. */
  lemma {:induction false} LessIsUnitOrder(a: string, b: string)
    ensures Less(a, b) == UnitsLess(Utf16(a), Utf16(b))
    decreases |a|
  {
    if a == [] {
      assert Utf16(b) == [] <==> b == [];
    } else if b != [] {
      assert a == [a[0]] + a[1..] && b == [b[0]] + b[1..];
      Utf16Cons(a[0], a[1..]);
      Utf16Cons(b[0], b[1..]);
      if a[0] == b[0] {
        UnitsLessAfter(CodeUnits(a[0]), Utf16(a[1..]), Utf16(b[1..]));
        LessIsUnitOrder(a[1..], b[1..]);
      } else {
        var i := CodeUnitsDiffer(a[0], b[0]);
        UnitsLessAt(CodeUnits(a[0]), Utf16(a[1..]), CodeUnits(b[0]), Utf16(b[1..]), i);
      }
    }
  }

  /** Of two different strings exactly one is the smaller; none is smaller
      than itself. */
  lemma LessTotal(a: string, b: string)
    ensures !Less(a, a)
    ensures a != b ==> (Less(a, b) <==> !Less(b, a))
  {
    LessIsUnitOrder(a, a);
    LessIsUnitOrder(a, b);
    LessIsUnitOrder(b, a);
    UnitsLessTotal(Utf16(a), Utf16(a));
    UnitsLessTotal(Utf16(a), Utf16(b));
    if a != b && Utf16(a) == Utf16(b) {
      Utf16Injective(a, b);
    }
  }

  /** Code units, not code points: U+2000B (a high surrogate first) sorts
      before U+FF21. */
  lemma LessByCodeUnits()
    ensures Less("\U{2000B}", "\U{FF21}") && !Less("\U{FF21}", "\U{2000B}")
  {
    assert CodeUnits('\U{2000B}') == [0xD840, 0xDC0B];
  }
}
