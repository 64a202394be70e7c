/** The JavaScript string operations the pipeline relies on: trim, case
    mapping, `includes`, `split`/`join` on one character, `split(/\s+/)` and
    `replace(/[^\w\s]/g, "")`. Case mapping covers the ASCII letters only. */
module JsText {

  /** The code points JavaScript counts as WhiteSpace or LineTerminator:
      what `trim` removes and what the regular-expression class `\s` matches. */
  predicate IsSpace(c: char) {
    || c == '\t' || c == '\n' || c == '\U{000B}' || c == '\U{000C}' || c == '\r'
    || c == ' ' || c == '\U{00A0}' || c == '\U{1680}'
    || ('\U{2000}' <= c <= '\U{200A}')
    || c == '\U{2028}' || c == '\U{2029}' || c == '\U{202F}' || c == '\U{205F}'
    || c == '\U{3000}' || c == '\U{FEFF}'
  }

  /** The regular-expression class `\w`: ASCII letters, digits and underscore. */
  predicate IsWordChar(c: char) {
    ('a' <= c <= 'z') || ('A' <= c <= 'Z') || ('0' <= c <= '9') || c == '_'
  }

  function UpperChar(c: char): char {
    if 'a' <= c <= 'z' then (c as int - 32) as char else c
  }

  function LowerChar(c: char): char {
    if 'A' <= c <= 'Z' then (c as int + 32) as char else c
  }

  /** `toUpperCase`, on the ASCII letters. */
  function Upper(s: string): (r: string)
    ensures |r| == |s|
  {
    if s == [] then [] else [UpperChar(s[0])] + Upper(s[1..])
  }

  /** `toLowerCase`, on the ASCII letters. */
  function Lower(s: string): (r: string)
    ensures |r| == |s|
  {
    if s == [] then [] else [LowerChar(s[0])] + Lower(s[1..])
  }

  /** Upper-casing maps every character on its own. */
  lemma {:induction false} UpperAt(s: string, i: nat)
    requires i < |s|
    ensures Upper(s)[i] == UpperChar(s[i])
  {
    if i > 0 { UpperAt(s[1..], i - 1); }
  }

  /** Lower-casing maps every character on its own. */
  lemma {:induction false} LowerAt(s: string, i: nat)
    requires i < |s|
    ensures Lower(s)[i] == LowerChar(s[i])
  {
    if i > 0 { LowerAt(s[1..], i - 1); }
  }

  /** Lower-casing leaves no upper-case ASCII letter behind. */
  lemma {:induction false} LowerHasNoUpper(s: string)
    ensures forall c :: c in Lower(s) ==> !('A' <= c <= 'Z')
  {
    if s != [] {
      LowerHasNoUpper(s[1..]);
      assert Lower(s) == [LowerChar(s[0])] + Lower(s[1..]);
    }
  }

  /** A string without lower-case ASCII letters is its own upper case. */
  lemma {:induction false} UpperNoOp(s: string)
    requires forall i :: 0 <= i < |s| ==> !('a' <= s[i] <= 'z')
    ensures Upper(s) == s
  {
    if s != [] {
      UpperNoOp(s[1..]);
      assert s == [s[0]] + s[1..];
    }
  }

  /** A string without upper-case ASCII letters is its own lower case. */
  lemma {:induction false} LowerNoOp(s: string)
    requires forall i :: 0 <= i < |s| ==> !('A' <= s[i] <= 'Z')
    ensures Lower(s) == s
  {
    if s != [] {
      LowerNoOp(s[1..]);
      assert s == [s[0]] + s[1..];
    }
  }

  lemma {:induction false} LowerAppend(a: string, b: string)
    ensures Lower(a + b) == Lower(a) + Lower(b)
  {
    if a != [] {
      LowerAppend(a[1..], b);
      assert (a + b)[0] == a[0];
      assert (a + b)[1..] == a[1..] + b;
      assert Lower(a + b) == [LowerChar(a[0])] + Lower(a[1..] + b);
      assert Lower(a) == [LowerChar(a[0])] + Lower(a[1..]);
      assert [LowerChar(a[0])] + (Lower(a[1..]) + Lower(b))
          == ([LowerChar(a[0])] + Lower(a[1..])) + Lower(b);
    } else {
      assert a + b == b;
    }
  }

  function TrimStart(s: string): (r: string)
    ensures |r| <= |s|
    ensures r == [] || !IsSpace(r[0])
  {
    if s != [] && IsSpace(s[0]) then TrimStart(s[1..]) else s
  }

  function TrimEnd(s: string): (r: string)
    ensures |r| <= |s| && r == s[..|r|]
    ensures r == [] || !IsSpace(r[|r| - 1])
  {
    if s != [] && IsSpace(s[|s| - 1]) then TrimEnd(s[..|s| - 1]) else s
  }

  lemma {:induction false} TrimStartSuffix(s: string)
    ensures TrimStart(s) == s[|s| - |TrimStart(s)|..]
    ensures forall i :: 0 <= i < |s| - |TrimStart(s)| ==> IsSpace(s[i])
  {
    if s != [] && IsSpace(s[0]) {
      TrimStartSuffix(s[1..]);
    }
  }

  lemma {:induction false} TrimEndSpaces(s: string)
    ensures forall i :: |TrimEnd(s)| <= i < |s| ==> IsSpace(s[i])
  {
    if s != [] && IsSpace(s[|s| - 1]) {
      TrimEndSpaces(s[..|s| - 1]);
    }
  }

  /** `trim`: drops the leading and the trailing white space. */
  function Trim(s: string): (r: string)
    ensures r == [] || (!IsSpace(r[0]) && !IsSpace(r[|r| - 1]))
  {
    TrimEnd(TrimStart(s))
  }

  /** What trim removes is white space, and what it keeps is one run of s. */
  lemma TrimIsSlice(s: string)
    ensures exists a, b ::
              && 0 <= a <= b <= |s| && Trim(s) == s[a..b]
              && (forall i :: 0 <= i < a ==> IsSpace(s[i]))
              && (forall i :: b <= i < |s| ==> IsSpace(s[i]))
  {
    var t := TrimStart(s);
    var r := TrimEnd(t);
    var a := |s| - |t|;
    TrimStartSuffix(s);
    TrimEndSpaces(t);
    assert r == s[a..a + |r|];
    forall i | a + |r| <= i < |s| ensures IsSpace(s[i]) {
      assert s[i] == t[i - a];
    }
  }

  /** A string with no white space at either end is its own trim. */
  lemma TrimNoOp(s: string)
    requires s == [] || (!IsSpace(s[0]) && !IsSpace(s[|s| - 1]))
    ensures Trim(s) == s
  {
  }

  /** One trailing white-space character is trimmed away. */
  lemma TrimTrailingSpace(s: string, c: char)
    requires s != [] && !IsSpace(s[0]) && !IsSpace(s[|s| - 1]) && IsSpace(c)
    ensures Trim(s + [c]) == s
  {
    var t := s + [c];
    assert TrimStart(t) == t;
    assert t[..|t| - 1] == s;
    assert TrimEnd(t) == TrimEnd(s) == s;
  }

  /** p occurs in s starting at position i. */
  predicate OccursAt(s: string, p: string, i: int) {
    0 <= i <= |s| - |p| && s[i..i + |p|] == p
  }

  /** The characters of p from position j on agree with those of s from i + j on. */
  function MatchFrom(s: string, p: string, i: nat, j: nat): bool
    requires i + |p| <= |s| && j <= |p|
    decreases |p| - j
  {
    j == |p| || (s[i + j] == p[j] && MatchFrom(s, p, i, j + 1))
  }

  /** Some occurrence of p in s starts at i or later. */
  function ContainsFrom(s: string, p: string, i: nat): bool
    decreases |s| - i
  {
    if i + |p| > |s| then false
    else if MatchFrom(s, p, i, 0) then true
    else ContainsFrom(s, p, i + 1)
  }

  /** `includes`: p occurs in s as a contiguous run. */
  function Contains(s: string, p: string): bool {
    ContainsFrom(s, p, 0)
  }

  lemma {:induction false} MatchFromAgrees(s: string, p: string, i: nat, j: nat)
    requires i + |p| <= |s| && j <= |p|
    ensures MatchFrom(s, p, i, j) <==> s[i + j..i + |p|] == p[j..]
    decreases |p| - j
  {
    if j < |p| {
      MatchFromAgrees(s, p, i, j + 1);
      assert s[i + j..i + |p|] == [s[i + j]] + s[i + j + 1..i + |p|];
      assert p[j..] == [p[j]] + p[j + 1..];
    }
  }

  lemma {:induction false} ContainsFromAt(s: string, p: string, i: nat)
    ensures ContainsFrom(s, p, i) <==> exists k :: i <= k && OccursAt(s, p, k)
    decreases |s| - i
  {
    if i + |p| > |s| {
    } else {
      MatchFromAgrees(s, p, i, 0);
      if MatchFrom(s, p, i, 0) {
        assert OccursAt(s, p, i);
      } else {
        ContainsFromAt(s, p, i + 1);
        if k :| i <= k && OccursAt(s, p, k) {
          assert k != i;
        }
      }
    }
  }

  /** Contains agrees with the definition of a substring by position. */
  lemma ContainsAt(s: string, p: string)
    ensures Contains(s, p) <==> exists i :: OccursAt(s, p, i)
  {
    ContainsFromAt(s, p, 0);
  }

  /** An occurrence at a known position makes `includes` true. */
  lemma PresentAt(s: string, p: string, i: int)
    requires OccursAt(s, p, i)
    ensures Contains(s, p)
  {
    ContainsAt(s, p);
  }

  /** A pattern holding a character that s lacks does not occur in s. */
  lemma AbsentChar(s: string, p: string, k: int)
    requires 0 <= k < |p| && p[k] !in s
    ensures !Contains(s, p)
  {
    forall i | 0 <= i <= |s| - |p|
      ensures !OccursAt(s, p, i)
    {
      assert s[i..i + |p|][k] == s[i + k];
      assert s[i + k] in s;
    }
    ContainsAt(s, p);
  }

  /** A pattern whose first character occurs in s only at the front, and
      which is not a prefix of s, does not occur in s. */
  lemma AbsentHead(s: string, p: string)
    requires p != [] && s != [] && p[0] !in s[1..]
    requires !(|p| <= |s| && s[..|p|] == p)
    ensures !Contains(s, p)
  {
    forall i | 0 <= i <= |s| - |p|
      ensures !OccursAt(s, p, i)
    {
      if i > 0 {
        assert s[i..i + |p|][0] == s[1..][i - 1];
      }
    }
    ContainsAt(s, p);
  }

  /** `split(sep)` for a one-character separator: every occurrence separates,
      so adjacent separators give empty pieces and "" gives [""]. */
  function SplitAt(s: string, sep: char): (r: seq<string>)
    ensures |r| >= 1
    ensures forall w :: w in r ==> sep !in w
  {
    if s == [] then [""]
    else if s[0] == sep then [""] + SplitAt(s[1..], sep)
    else
      var t := SplitAt(s[1..], sep);
      [[s[0]] + t[0]] + t[1..]
  }

  /** `join(sep)`. */
  function Join(ws: seq<string>, sep: char): string {
    if ws == [] then ""
    else if |ws| == 1 then ws[0]
    else ws[0] + [sep] + Join(ws[1..], sep)
  }

  /** Joining the pieces of a split gives back the string. */
  lemma {:induction false} JoinSplit(s: string, sep: char)
    ensures Join(SplitAt(s, sep), sep) == s
  {
    if s == [] {
    } else if s[0] == sep {
      JoinSplit(s[1..], sep);
      assert s == [sep] + s[1..];
    } else {
      var t := SplitAt(s[1..], sep);
      JoinSplit(s[1..], sep);
      if |t| == 1 {
      } else {
        assert Join(t, sep) == t[0] + [sep] + Join(t[1..], sep);
        assert s == [s[0]] + s[1..];
      }
    }
  }

  lemma {:induction false} SplitWhole(w: string, sep: char)
    requires sep !in w
    ensures SplitAt(w, sep) == [w]
  {
    if w != [] {
      assert w[0] in w;
      assert forall c :: c in w[1..] ==> c in w;
      SplitWhole(w[1..], sep);
      assert w == [w[0]] + w[1..];
    }
  }

  lemma {:induction false} SplitFirst(w: string, sep: char, rest: string)
    requires sep !in w
    ensures SplitAt(w + [sep] + rest, sep) == [w] + SplitAt(rest, sep)
  {
    if w == [] {
      assert w + [sep] + rest == [sep] + rest;
    } else {
      assert w[0] in w;
      assert forall c :: c in w[1..] ==> c in w;
      SplitFirst(w[1..], sep, rest);
      assert w + [sep] + rest == [w[0]] + (w[1..] + [sep] + rest);
      assert w == [w[0]] + w[1..];
    }
  }

  /** Splitting a join of separator-free pieces gives back the pieces. */
  lemma {:induction false} SplitJoin(ws: seq<string>, sep: char)
    requires |ws| >= 1
    requires forall i :: 0 <= i < |ws| ==> sep !in ws[i]
    ensures SplitAt(Join(ws, sep), sep) == ws
  {
    if |ws| == 1 {
      SplitWhole(ws[0], sep);
    } else {
      var rest := ws[1..];
      assert forall i :: 0 <= i < |rest| ==> rest[i] == ws[i + 1];
      SplitJoin(rest, sep);
      assert Join(ws, sep) == ws[0] + [sep] + Join(rest, sep);
      SplitFirst(ws[0], sep, Join(rest, sep));
      assert ws == [ws[0]] + rest;
    }
  }

  /** `replace(/[^\w\s]/g, "")`: keeps word characters and white space only. */
  function KeepWordAndSpace(s: string): (r: string)
    ensures forall c :: c in r <==> c in s && (IsWordChar(c) || IsSpace(c))
  {
    if s == [] then []
    else if IsWordChar(s[0]) || IsSpace(s[0]) then [s[0]] + KeepWordAndSpace(s[1..])
    else KeepWordAndSpace(s[1..])
  }

  lemma {:induction false} KeepWordAndSpaceAppend(a: string, b: string)
    ensures KeepWordAndSpace(a + b) == KeepWordAndSpace(a) + KeepWordAndSpace(b)
  {
    if a != [] {
      var c, t := a[0], a[1..];
      KeepWordAndSpaceAppend(t, b);
      assert (a + b)[0] == c;
      assert (a + b)[1..] == t + b;
      var head := if IsWordChar(c) || IsSpace(c) then [c] else [];
      assert KeepWordAndSpace(a) == head + KeepWordAndSpace(t);
      assert KeepWordAndSpace(a + b) == head + KeepWordAndSpace(t + b);
      assert head + (KeepWordAndSpace(t) + KeepWordAndSpace(b))
          == (head + KeepWordAndSpace(t)) + KeepWordAndSpace(b);
    } else {
      assert a + b == b;
    }
  }

  /** Nothing is removed from a string of word characters and white space. */
  lemma {:induction false} KeepWordAndSpaceNoOp(s: string)
    requires forall i :: 0 <= i < |s| ==> IsWordChar(s[i]) || IsSpace(s[i])
    ensures KeepWordAndSpace(s) == s
  {
    if s != [] {
      KeepWordAndSpaceNoOp(s[1..]);
      assert s == [s[0]] + s[1..];
    }
  }

  function DropSpaces(s: string): (r: string)
    ensures |r| <= |s|
  {
    if s != [] && IsSpace(s[0]) then DropSpaces(s[1..]) else s
  }

  /** `split(/\s+/)`: every maximal run of white space separates two pieces;
      leading or trailing white space gives an empty first or last piece. */
  function SplitWs(s: string): seq<string> {
    SplitWsFrom(s, "")
  }

  function SplitWsFrom(s: string, cur: string): (r: seq<string>)
    ensures |r| >= 1
    decreases |s|
  {
    if s == [] then [cur]
    else if IsSpace(s[0]) then [cur] + SplitWsFrom(DropSpaces(s[1..]), "")
    else SplitWsFrom(s[1..], cur + [s[0]])
  }

  /** Without white space there is one piece, the whole string. */
  lemma {:induction false} SplitWsNoSpace(s: string, cur: string)
    requires forall i :: 0 <= i < |s| ==> !IsSpace(s[i])
    ensures SplitWsFrom(s, cur) == [cur + s]
    decreases |s|
  {
    if s != [] {
      assert !IsSpace(s[0]);
      assert forall i :: 0 <= i < |s[1..]| ==> s[1..][i] == s[i + 1];
      SplitWsNoSpace(s[1..], cur + [s[0]]);
      assert cur + [s[0]] + s[1..] == cur + s;
    } else {
      assert cur + s == cur;
    }
  }

  /** A non-empty run of white space. */
  predicate Blank(b: string) {
    |b| > 0 && forall i :: 0 <= i < |b| ==> IsSpace(b[i])
  }

  /** The pieces `ws` with the separator `seps[i]` between `ws[i]` and
      `ws[i + 1]`. */
  function Weave(ws: seq<string>, seps: seq<string>): string
    requires |ws| >= 1 && |seps| == |ws| - 1
  {
    if |ws| == 1 then ws[0] else ws[0] + seps[0] + Weave(ws[1..], seps[1..])
  }

  lemma {:induction false} DropBlank(b: string, rest: string)
    requires forall i :: 0 <= i < |b| ==> IsSpace(b[i])
    requires rest == [] || !IsSpace(rest[0])
    ensures DropSpaces(b + rest) == rest
  {
    if b == [] {
      assert b + rest == rest;
    } else {
      assert (b + rest)[0] == b[0];
      assert (b + rest)[1..] == b[1..] + rest;
      DropBlank(b[1..], rest);
    }
  }

  /** A piece followed by a run of white space is cut off whole, and the
      split goes on after the run. */
  lemma {:induction false} SplitWsFirst(w: string, cur: string, sep: string, rest: string)
    requires forall i :: 0 <= i < |w| ==> !IsSpace(w[i])
    requires Blank(sep)
    requires rest == [] || !IsSpace(rest[0])
    ensures SplitWsFrom(w + sep + rest, cur) == [cur + w] + SplitWsFrom(rest, "")
    decreases |w|
  {
    if w == [] {
      var t := w + sep + rest;
      assert t == sep + rest;
      assert t[0] == sep[0];
      assert t[1..] == sep[1..] + rest;
      DropBlank(sep[1..], rest);
      assert cur + w == cur;
    } else {
      var t := w + sep + rest;
      assert t[0] == w[0];
      assert t[1..] == w[1..] + sep + rest;
      SplitWsFirst(w[1..], cur + [w[0]], sep, rest);
      assert cur + [w[0]] + w[1..] == cur + w;
    }
  }

  /** `split(/\s+/)` undoes any weave of white-space-free pieces with runs
      of white space, provided only the first and the last piece are empty:
      the split cuts exactly at the maximal white-space runs. */
  lemma {:induction false} SplitWsWeave(ws: seq<string>, seps: seq<string>)
    requires |ws| >= 1 && |seps| == |ws| - 1
    requires forall i, j :: 0 <= i < |ws| && 0 <= j < |ws[i]| ==> !IsSpace(ws[i][j])
    requires forall i :: 0 <= i < |seps| ==> Blank(seps[i])
    requires forall i :: 0 < i < |ws| - 1 ==> ws[i] != ""
    ensures SplitWs(Weave(ws, seps)) == ws
    decreases |ws|
  {
    if |ws| == 1 {
      SplitWsNoSpace(ws[0], "");
      assert "" + ws[0] == ws[0];
    } else {
      var rest := Weave(ws[1..], seps[1..]);
      assert forall i, j :: 0 <= i < |ws[1..]| && 0 <= j < |ws[1..][i]| ==> !IsSpace(ws[1..][i][j]) by {
        forall i, j | 0 <= i < |ws[1..]| && 0 <= j < |ws[1..][i]|
          ensures !IsSpace(ws[1..][i][j])
        {
          assert ws[1..][i] == ws[i + 1];
        }
      }
      assert forall i :: 0 < i < |ws[1..]| - 1 ==> ws[1..][i] != "" by {
        forall i | 0 < i < |ws[1..]| - 1
          ensures ws[1..][i] != ""
        {
          assert ws[1..][i] == ws[i + 1];
        }
      }
      SplitWsWeave(ws[1..], seps[1..]);
      if |ws| == 2 {
        assert rest == ws[1];
      } else {
        assert rest == ws[1] + seps[1] + Weave(ws[2..], seps[2..]) by {
          assert ws[1..][1..] == ws[2..];
          assert seps[1..][1..] == seps[2..];
        }
      }
      assert rest == [] || !IsSpace(rest[0]) by {
        if ws[1] != "" {
          assert rest[0] == ws[1][0];
        } else {
          assert |ws| == 2;
        }
      }
      assert Blank(seps[0]);
      SplitWsFirst(ws[0], "", seps[0], rest);
      assert "" + ws[0] == ws[0];
      assert ws == [ws[0]] + ws[1..];
    }
  }

  function Concat(ws: seq<string>): string {
    if ws == [] then "" else ws[0] + Concat(ws[1..])
  }

  function RemoveSpaces(s: string): string {
    if s == [] then ""
    else if IsSpace(s[0]) then RemoveSpaces(s[1..])
    else [s[0]] + RemoveSpaces(s[1..])
  }

  lemma {:induction false} RemoveSpacesDrop(s: string)
    ensures RemoveSpaces(DropSpaces(s)) == RemoveSpaces(s)
  {
    if s != [] && IsSpace(s[0]) { RemoveSpacesDrop(s[1..]); }
  }

  lemma {:induction false} SplitWsFromPieces(s: string, cur: string)
    requires forall c :: c in cur ==> !IsSpace(c)
    ensures forall w :: w in SplitWsFrom(s, cur) ==> forall c :: c in w ==> !IsSpace(c)
    ensures Concat(SplitWsFrom(s, cur)) == cur + RemoveSpaces(s)
    decreases |s|
  {
    if s == [] {
    } else if IsSpace(s[0]) {
      var rest := DropSpaces(s[1..]);
      SplitWsFromPieces(rest, "");
      RemoveSpacesDrop(s[1..]);
      assert Concat([cur] + SplitWsFrom(rest, "")) == cur + Concat(SplitWsFrom(rest, ""));
    } else {
      SplitWsFromPieces(s[1..], cur + [s[0]]);
      assert cur + [s[0]] + RemoveSpaces(s[1..]) == cur + ([s[0]] + RemoveSpaces(s[1..]));
    }
  }

  /** The pieces of `split(/\s+/)` hold no white space, and together they
      hold every other character of the input, in order. */
  lemma SplitWsPieces(s: string)
    ensures forall w :: w in SplitWs(s) ==> forall c :: c in w ==> !IsSpace(c)
    ensures Concat(SplitWs(s)) == RemoveSpaces(s)
  {
    SplitWsFromPieces(s, "");
  }
}
