/** The column normalisers of the spreadsheet import (src/scripts/import-xlsx.js):
    the patent type read off the publication number's kind letter, the
    IPC prefix of the main classification, the applicant list rewritten
    with commas, and the grant flag read off the legal status. */
module XlsxImport {
  import opened Js
  import opened Text

  // ---------------------------------------------------------------------------
  // derivePatentType

  const Utility: string := "实用新型"
  const Design: string := "外观设计"
  const Invention: string := "发明"

  /** `s.slice(-1)`. */
  function LastChar(s: string): (r: string)
    ensures s == "" ==> r == ""
    ensures s != "" ==> r == [s[|s| - 1]]
  {
    if s == "" then "" else s[|s| - 1..]
  }

  /** `slice(-1)` takes the last UTF-16 code unit, `LastChar` the last
      character. Against each kind letter they decide alike: the last unit
      is the letter exactly when the last character is. */
  lemma LastCharDecides(s: string, x: char)
    requires s != "" && x in {'U', 'S', 'A', 'B'}
    ensures var u := Utf16(s); u[|u| - 1] == x as int <==> LastChar(s) == [x]
  {
    Utf16Last(s, x);
  }

  /** The type named by an upper-cased last character. */
  function TypeOfLast(last: string): Option<string> {
    if last == "U" then Some(Utility)
    else if last == "S" then Some(Design)
    else if last == "A" || last == "B" then Some(Invention)
    else None
  }


  lemma UpperLast(t: string)
    requires t != ""
    ensures LastChar(Upper(t)) == [UpperChar(t[|t| - 1])]
  {
  }

  /** Upper-casing makes the kind letter case-insensitive. */
  lemma TypeOfLetter(c: char)
    ensures TypeOfLast([UpperChar(c)]) ==
              if c == 'U' || c == 'u' then Some(Utility)
              else if c == 'S' || c == 's' then Some(Design)
              else if c == 'A' || c == 'a' || c == 'B' || c == 'b' then Some(Invention)
              else None
  {
  }

  /** The type of trimmed text is read off its last character, in either case. */
  lemma KindLetterOfText(t: string)
    requires t != ""
    ensures var c := t[|t| - 1];
            TypeOfLast(LastChar(Upper(t))) ==
              if c == 'U' || c == 'u' then Some(Utility)
              else if c == 'S' || c == 's' then Some(Design)
              else if c == 'A' || c == 'a' || c == 'B' || c == 'b' then Some(Invention)
              else None
  {
    UpperLast(t);
    TypeOfLetter(t[|t| - 1]);
  }

  /** `derivePatentType(pubNo)`: by the last character after trimming and
      upper-casing. The type depends only on the last non-blank character,
      in either case: `U`/`u` utility model, `S`/`s` design, `A`/`a`/`B`/`b`
      invention; nothing for a missing or blank number. */
  function DerivePatentType(pubNo: Value): (r: Option<string>)
    ensures var t := Trim(ToStr(pubNo));
            !Truthy(pubNo) || t == "" ==> r == None
    ensures var t := Trim(ToStr(pubNo));
            Truthy(pubNo) && t != "" ==>
              var c := t[|t| - 1];
              r == if c == 'U' || c == 'u' then Some(Utility)
                   else if c == 'S' || c == 's' then Some(Design)
                   else if c == 'A' || c == 'a' || c == 'B' || c == 'b' then Some(Invention)
                   else None
  {
    if !Truthy(pubNo) then None
    else
      var t := Trim(ToStr(pubNo));
      if t == "" then
        assert Upper(t) == "";
        TypeOfLast(LastChar(Upper(t)))
      else
        KindLetterOfText(t);
        TypeOfLast(LastChar(Upper(t)))
  }

  // ---------------------------------------------------------------------------
  // ipcPrefix

  /** The pattern `[A-Z]\d{2}` starts at `i` (its optional fourth letter
      never makes a match fail). */
  predicate MatchAt(t: string, i: nat) {
    i + 3 <= |t| && IsUpperLetter(t[i]) && IsDigit(t[i + 1]) && IsDigit(t[i + 2])
  }

  /** The greedy `[A-Z]?`: four characters when a letter follows. */
  function MatchLen(t: string, i: nat): (n: nat)
    requires MatchAt(t, i)
    ensures n == 3 || n == 4
    ensures i + n <= |t|
  {
    if i + 3 < |t| && IsUpperLetter(t[i + 3]) then 4 else 3
  }

  /** The leftmost match at or after `from`. */
  function FirstMatch(t: string, from: nat): (r: Option<nat>)
    ensures r.Some? ==> from <= r.value && MatchAt(t, r.value)
    ensures r.Some? ==> forall k :: from <= k < r.value ==> !MatchAt(t, k)
    ensures r.None? ==> forall k :: from <= k ==> !MatchAt(t, k)
    decreases |t| - from
  {
    if from + 3 > |t| then None
    else if MatchAt(t, from) then Some(from)
    else FirstMatch(t, from + 1)
  }

  /** `String(main).toUpperCase().replace(/\s+/g, '')`. */
  function IpcText(main: Value): string {
    ReplaceRuns(Upper(ToStr(main)), Spaces, "")
  }

  /** The prefix taken from normalised text: the first match of
      `[A-Z]\d{2}[A-Z]?`, else the first four characters. */
  function PrefixOfText(t: string): string {
    match FirstMatch(t, 0)
    case Some(i) => t[i..i + MatchLen(t, i)]
    case None => if |t| <= 4 then t else t[..4]
  }


  const AsciiLower: set<char> := {
    'a', 'b', 'c', 'd', 'e', 'f', 'g', 'h', 'i', 'j', 'k', 'l', 'm',
    'n', 'o', 'p', 'q', 'r', 's', 't', 'u', 'v', 'w', 'x', 'y', 'z'
  }

  /** The normalised text is upper-case and has no white space. */
  lemma IpcTextShape(main: Value)
    ensures NoneIn(IpcText(main), Spaces) && NoneIn(IpcText(main), AsciiLower)
  {
    var u := Upper(ToStr(main));
    forall k | 0 <= k < |u|
      ensures u[k] !in AsciiLower
    {
      assert !IsLowerLetter(u[k]);
    }
    ReplaceRunsKeepsOut(u, Spaces, "", AsciiLower);
  }

  /** The prefix of upper-case text without white space is such text
      too, at most four characters long. */
  lemma PrefixOfTextShape(t: string)
    requires NoneIn(t, Spaces) && NoneIn(t, AsciiLower)
    ensures var p := PrefixOfText(t);
            |p| <= 4 && NoneIn(p, Spaces) && NoneIn(p, AsciiLower)
  {
    var p := PrefixOfText(t);
    match FirstMatch(t, 0)
    case Some(i) =>
      assert p == t[i..i + MatchLen(t, i)];
      assert forall k :: 0 <= k < |p| ==> p[k] == t[i + k];
    case None =>
      assert forall k :: 0 <= k < |p| ==> p[k] == t[k];
  }

  /** `ipcPrefix(main)`: nothing for an unset main classification,
      otherwise the prefix of its normalised text, which is upper-case, free
      of white space and at most four characters long. */
  function IpcPrefix(main: Value): (r: Option<string>)
    ensures r.None? <==> !Truthy(main)
    ensures r.Some? ==> |r.value| <= 4 && NoneIn(r.value, Spaces) && NoneIn(r.value, AsciiLower)
  {
    if !Truthy(main) then None
    else
      IpcTextShape(main);
      PrefixOfTextShape(IpcText(main));
      Some(PrefixOfText(IpcText(main)))
  }

  /** With a match at `j` and none before it, the prefix is the match. */
  lemma PrefixOfTextMatch(t: string, j: nat)
    requires MatchAt(t, j)
    requires forall k: nat :: k < j ==> !MatchAt(t, k)
    ensures var p := PrefixOfText(t);
            && (|p| == 3 || |p| == 4) && j + |p| <= |t| && p == t[j..j + |p|]
            && (|p| == 4 <==> j + 3 < |t| && IsUpperLetter(t[j + 3]))
  {
    var m := FirstMatch(t, 0);
    if m.None? {
      assert false;
    } else if m.value < j {
      assert false;
    } else if m.value > j {
      assert false;
    }
  }

  /** With a match, the prefix is the leftmost `[A-Z]\d{2}` of the
      normalised text, with the letter after it when there is one. */
  lemma IpcPrefixOfMatch(main: Value, j: nat)
    requires Truthy(main)
    requires MatchAt(IpcText(main), j)
    requires forall k: nat :: k < j ==> !MatchAt(IpcText(main), k)
    ensures var p, t := IpcPrefix(main).value, IpcText(main);
            && (|p| == 3 || |p| == 4) && j + |p| <= |t| && p == t[j..j + |p|]
            && (|p| == 4 <==> j + 3 < |t| && IsUpperLetter(t[j + 3]))
  {
    PrefixOfTextMatch(IpcText(main), j);
  }

  /** Without a match, the prefix is the first four characters. */
  lemma IpcPrefixWithoutMatch(main: Value)
    requires Truthy(main)
    requires forall k: nat :: !MatchAt(IpcText(main), k)
    ensures var t := IpcText(main);
            IpcPrefix(main) == Some(t[..if |t| <= 4 then |t| else 4])
  {
    var t := IpcText(main);
    if FirstMatch(t, 0).Some? {
      assert false;
    }
    assert t[..|t|] == t;
  }

  /** `t.slice(0, 4)` counts UTF-16 code units: when the first four
      characters lie below U+10000 the prefix taken without a match is
      exactly the first four code units of the text. */
  lemma IpcPrefixWithoutMatchUnits(main: Value)
    requires Truthy(main)
    requires forall k: nat :: !MatchAt(IpcText(main), k)
    requires var t := IpcText(main); forall i :: 0 <= i < |t| && i < 4 ==> t[i] as int < 0x1_0000
    ensures var t := IpcText(main);
            Utf16(IpcPrefix(main).value) == Utf16(t)[..if |t| <= 4 then |t| else 4]
  {
    var t := IpcText(main);
    IpcPrefixWithoutMatch(main);
    Utf16OfPrefix(t, if |t| <= 4 then |t| else 4);
  }

  /** Upper-case text without white space normalises to itself. */
  lemma IpcTextOfNormal(p: string)
    requires NoneIn(p, Spaces) && NoneIn(p, AsciiLower)
    ensures IpcText(Str(p)) == p
  {
    assert Upper(p) == p by {
      forall k | 0 <= k < |p|
        ensures Upper(p)[k] == p[k]
      {
        assert !IsLowerLetter(p[k]) by { assert p[k] !in AsciiLower; }
      }
    }
    ReplaceRunsIdentity(p, Spaces, "");
  }

  /** A matched prefix, read again, matches whole at its start. */
  lemma MatchReparsed(t: string, j: nat)
    requires MatchAt(t, j)
    ensures var p := t[j..j + MatchLen(t, j)];
            MatchAt(p, 0) && FirstMatch(p, 0) == Some(0) && p[0..MatchLen(p, 0)] == p
  {
    var p := t[j..j + MatchLen(t, j)];
    assert p[0] == t[j] && p[1] == t[j + 1] && p[2] == t[j + 2];
    if |p| == 4 {
      assert p[3] == t[j + 3];
    }
    assert MatchLen(p, 0) == |p|;
  }

  /** Text without a match has no match in its first four characters. */
  lemma NoMatchReparsed(t: string)
    requires forall k: nat :: !MatchAt(t, k)
    ensures var p := if |t| <= 4 then t else t[..4];
            forall k: nat :: !MatchAt(p, k)
  {
    var p := if |t| <= 4 then t else t[..4];
    forall k: nat | MatchAt(p, k)
      ensures false
    {
      assert p[k] == t[k] && p[k + 1] == t[k + 1] && p[k + 2] == t[k + 2];
      assert MatchAt(t, k);
    }
  }

  /** A prefix of normalised text is its own prefix. */
  lemma {:induction false} PrefixOfTextIdempotent(t: string)
    ensures PrefixOfText(PrefixOfText(t)) == PrefixOfText(t)
  {
    match FirstMatch(t, 0)
    case Some(j) =>
      MatchReparsed(t, j);
    case None =>
      NoMatchReparsed(t);
      var p := if |t| <= 4 then t else t[..4];
      if FirstMatch(p, 0).Some? {
        assert false;
      }
  }

  /** Feeding a non-empty prefix back in gives it back. */
  lemma IpcPrefixIdempotent(main: Value)
    requires IpcPrefix(main).Some? && IpcPrefix(main).value != ""
    ensures IpcPrefix(Str(IpcPrefix(main).value)) == IpcPrefix(main)
  {
    var p := IpcPrefix(main).value;
    IpcTextOfNormal(p);
    PrefixOfTextIdempotent(IpcText(main));
  }

  // ---------------------------------------------------------------------------
  // normalizeApplicant

  /** The class `[\|;；、\s]`. */
  const ApplicantSeps: set<char> := {'|', ';', '；', '、'} + Spaces

  /** `.replace(/^,|,$/g, '')`: one leading and one trailing comma. */
  function StripCommas(s: string): string {
    var t := if |s| > 0 && s[0] == ',' then s[1..] else s;
    if |t| > 0 && t[|t| - 1] == ',' then t[..|t| - 1] else t
  }

  /** The three replacements of `normalizeApplicant` on the text. */
  function NormalizeText(s: string): string {
    StripCommas(ReplaceRuns(ReplaceRuns(s, ApplicantSeps, ","), {','}, ","))
  }

  /** No two commas in a row. */
  predicate SingleCommas(s: string) {
    forall i :: 0 <= i < |s| - 1 ==> !(s[i] == ',' && s[i + 1] == ',')
  }

  /** What the normalised text looks like: no separator but the comma, no
      empty field between commas, no comma at either end. */
  predicate Normalized(s: string) {
    NoneIn(s, ApplicantSeps) && SingleCommas(s) && (s != "" ==> s[0] != ',' && s[|s| - 1] != ',')
  }

  /** The two replacements before stripping. */
  lemma CollapsedShape(s: string)
    ensures var c := ReplaceRuns(ReplaceRuns(s, ApplicantSeps, ","), {','}, ",");
            NoneIn(c, ApplicantSeps) && SingleCommas(c)
  {
    var a := ReplaceRuns(s, ApplicantSeps, ",");
    CommaIsNoSep();
    ReplaceRunsKeepsOut(a, {','}, ",", ApplicantSeps);
  }

  lemma CommaIsNoSep()
    ensures NoneIn(",", ApplicantSeps)
  {
    assert ',' !in Spaces;
  }

  /** Stripping the end commas of such a text leaves it normalised. */
  lemma StripShape(c: string)
    requires NoneIn(c, ApplicantSeps) && SingleCommas(c)
    ensures Normalized(StripCommas(c))
  {
    var t := if |c| > 0 && c[0] == ',' then c[1..] else c;
    assert NoneIn(t, ApplicantSeps) && SingleCommas(t);
    assert t != "" ==> t[0] != ',';
    var r := StripCommas(c);
    if |t| > 0 && t[|t| - 1] == ',' {
      assert r == t[..|t| - 1];
      assert r != "" ==> r[|r| - 1] == t[|t| - 2];
    }
  }

  lemma NormalizeShape(s: string)
    ensures Normalized(NormalizeText(s))
  {
    CollapsedShape(s);
    StripShape(ReplaceRuns(ReplaceRuns(s, ApplicantSeps, ","), {','}, ","));
  }

  /** `normalizeApplicant(a)`: nothing for an unset applicant, otherwise
      the text with every separator turned into a comma, no empty field and
      no comma at either end, its names those of the input, in order. */
  function NormalizeApplicant(a: Value): (r: Option<string>)
    ensures r.None? <==> !Truthy(a)
    ensures r.Some? ==> Normalized(r.value)
    ensures r.Some? ==> Tokens(r.value, {','}) == Tokens(ToStr(a), ApplicantSeps + {','})
  {
    if !Truthy(a) then None
    else
      NormalizeShape(ToStr(a));
      NormalizeKeepsNames(ToStr(a));
      Some(NormalizeText(ToStr(a)))
  }

  /** Normalising twice is normalising once. */
  lemma NormalizeIdempotent(s: string)
    ensures NormalizeText(NormalizeText(s)) == NormalizeText(s)
  {
    var r := NormalizeText(s);
    NormalizeShape(s);
    ReplaceRunsIdentity(r, ApplicantSeps, ",");
    ReplaceRunsSingles(r, {','}, ',');
  }

  /** Dropping an end delimiter keeps the tokens. */
  lemma StripKeepsTokens(c: string, D: set<char>)
    requires ',' in D
    ensures Tokens(StripCommas(c), D) == Tokens(c, D)
  {
    var t := if |c| > 0 && c[0] == ',' then c[1..] else c;
    if |c| > 0 && c[0] == ',' {
      TokensDropDelims(c, D, 1);
    }
    if |t| > 0 && t[|t| - 1] == ',' {
      var r := t[..|t| - 1];
      assert t == r + [','];
      TokensAppendDelim(r, ',', D);
    }
  }

  /** The applicant names survive: splitting the output at commas gives the
      same non-empty names, in order, as splitting the input at any
      separator. */
  lemma NormalizeKeepsNames(s: string)
    ensures Tokens(NormalizeText(s), {','}) == Tokens(s, ApplicantSeps + {','})
  {
    var D := ApplicantSeps + {','};
    var a := ReplaceRuns(s, ApplicantSeps, ",");
    var c := ReplaceRuns(a, {','}, ",");
    ReplaceRunsKeepsTokens(s, ApplicantSeps, ',', D);
    ReplaceRunsKeepsTokens(a, {','}, ',', D);
    StripKeepsTokens(c, D);
    var r := NormalizeText(s);
    NormalizeShape(s);
    forall i | 0 <= i < |r|
      ensures r[i] in D <==> r[i] in {','}
    {
    }
    TokensSameDelims(r, D, {','});
  }

  // ---------------------------------------------------------------------------
  // isGranted

  const GrantedMark: string := "授权"

  /** `isGranted(legalStatus)`: 1 when the text mentions 授权, else 0. */
  function IsGranted(legal: Value): (g: int)
    ensures g == 0 || g == 1
    ensures g == 1 <==> Truthy(legal) && exists i :: OccursAt(ToStr(legal), GrantedMark, i)
  {
    if !Truthy(legal) then 0
    else if IndexOf(ToStr(legal), GrantedMark, 0).Some? then 1
    else 0
  }

  /** Any status text that mentions 授权 anywhere is a grant. */
  lemma GrantedWhenMentioned(x: string, y: string)
    ensures IsGranted(Str(x + GrantedMark + y)) == 1
  {
    var s := x + GrantedMark + y;
    assert s[|x|..|x| + |GrantedMark|] == GrantedMark;
    assert OccursAt(s, GrantedMark, |x|);
  }
}
