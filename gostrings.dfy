/** The three Go standard-library string operations the estimator relies on:
    `strings.Split(s, "\n")`, `strings.Fields` and `strings.Contains`.
    Text is a sequence of Unicode code points. */
module GoStrings {

  const NewLine: char := '\n'

  /** Go's `unicode.IsSpace`: the Latin-1 spaces plus the other Unicode
      White_Space code points. */
  predicate IsSpace(c: char) {
    c == '\t' || c == '\n' || c == '\U{000B}' || c == '\U{000C}' || c == '\r' || c == ' '
    || c == '\U{0085}' || c == '\U{00A0}' || c == '\U{1680}'
    || ('\U{2000}' <= c <= '\U{200A}')
    || c == '\U{2028}' || c == '\U{2029}' || c == '\U{202F}' || c == '\U{205F}' || c == '\U{3000}'
  }

  predicate NoSpace(s: string) {
    forall i :: 0 <= i < |s| ==> !IsSpace(s[i])
  }

  // ---------------------------------------------------------------------
  // strings.Split(s, "\n")

  /** The pieces joined back together with a newline between neighbours. */
  function JoinLines(lines: seq<string>): string
    requires |lines| >= 1
  {
    if |lines| == 1 then lines[0] else lines[0] + [NewLine] + JoinLines(lines[1..])
  }

  /** `strings.Split(s, "\n")`: the text between consecutive newlines. */
  function SplitLines(s: string): (lines: seq<string>)
    ensures |lines| >= 1
  {
    if |s| == 0 then [""]
    else
      var rest := SplitLines(s[1..]);
      if s[0] == NewLine then [""] + rest
      else [[s[0]] + rest[0]] + rest[1..]
  }

  /** There is always one piece more than there are newlines (so the empty
      text gives one empty piece and a trailing newline a trailing empty
      piece), no piece holds a newline, and joining the pieces with newlines
      gives the text back. */
  lemma {:induction false} SplitLinesPieces(s: string)
    ensures var lines := SplitLines(s);
      |lines| == Count(s, NewLine) + 1
      && (forall i :: 0 <= i < |lines| ==> NewLine !in lines[i])
      && JoinLines(lines) == s
  {
    if |s| > 0 {
      SplitLinesPieces(s[1..]);
      var rest := SplitLines(s[1..]);
      if s[0] != NewLine {
        var lines := [[s[0]] + rest[0]] + rest[1..];
        assert lines[1..] == rest[1..];
        assert forall i :: 1 <= i < |lines| ==> lines[i] == rest[i];
      } else {
        var lines := [""] + rest;
        assert lines[1..] == rest;
      }
    }
  }

  function Count(s: string, c: char): nat {
    if |s| == 0 then 0 else (if s[0] == c then 1 else 0) + Count(s[1..], c)
  }

  /** Joining newline-free pieces and splitting again gives the pieces back. */
  lemma {:induction false} SplitJoinLines(lines: seq<string>)
    requires |lines| >= 1
    requires forall i :: 0 <= i < |lines| ==> NewLine !in lines[i]
    ensures SplitLines(JoinLines(lines)) == lines
  {
    if |lines| == 1 {
      SplitNewLineFree(lines[0]);
    } else {
      SplitJoinLines(lines[1..]);
      SplitPrefix(lines[0], JoinLines(lines[1..]));
    }
  }

  lemma {:induction false} SplitNewLineFree(s: string)
    requires NewLine !in s
    ensures SplitLines(s) == [s]
  {
    if |s| > 0 {
      assert NewLine !in s[1..] by {
        forall i | 0 <= i < |s[1..]| ensures s[1..][i] != NewLine { assert s[1..][i] == s[i + 1]; }
      }
      SplitNewLineFree(s[1..]);
      assert [s[0]] + s[1..] == s;
    }
  }

  /** A newline-free first piece becomes the first line. */
  lemma {:induction false} SplitPrefix(w: string, rest: string)
    requires NewLine !in w
    ensures SplitLines(w + [NewLine] + rest) == [w] + SplitLines(rest)
  {
    var s := w + [NewLine] + rest;
    if |w| == 0 {
      assert s[1..] == rest;
    } else {
      assert s[1..] == w[1..] + [NewLine] + rest;
      assert NewLine !in w[1..] by {
        forall i | 0 <= i < |w[1..]| ensures w[1..][i] != NewLine { assert w[1..][i] == w[i + 1]; }
      }
      SplitPrefix(w[1..], rest);
      assert [w[0]] + w[1..] == w;
    }
  }

  // ---------------------------------------------------------------------
  // strings.Fields

  /** The code points of `s` that are not white space, in order. */
  function NonSpace(s: string): string {
    if |s| == 0 then [] else (if IsSpace(s[0]) then [] else [s[0]]) + NonSpace(s[1..])
  }

  function Concat(ss: seq<string>): string {
    if |ss| == 0 then [] else ss[0] + Concat(ss[1..])
  }

  /** `strings.Fields`: the maximal runs of non-space code points. */
  function Fields(s: string): (fs: seq<string>)
    ensures |s| > 0 && !IsSpace(s[0]) ==> |fs| > 0
  {
    if |s| == 0 then []
    else
      var rest := Fields(s[1..]);
      if IsSpace(s[0]) then rest
      else if |s| > 1 && !IsSpace(s[1]) then
        // s[1] opens the first field of the rest, which this code point extends
        [[s[0]] + rest[0]] + rest[1..]
      else
        [[s[0]]] + rest
  }

  /** A field as Fields yields it: non-empty and without white space. */
  predicate Word(s: string) {
    s != [] && NoSpace(s)
  }

  /** Every field is non-empty and free of white space. */
  lemma {:induction false} FieldsAreWords(s: string)
    ensures forall i :: 0 <= i < |Fields(s)| ==> Word(Fields(s)[i])
  {
    if |s| > 0 {
      FieldsAreWords(s[1..]);
      var rest := Fields(s[1..]);
      if !IsSpace(s[0]) && |s| > 1 && !IsSpace(s[1]) {
        var fs := [[s[0]] + rest[0]] + rest[1..];
        assert forall i :: 1 <= i < |fs| ==> fs[i] == rest[i];
        assert NoSpace(fs[0]) by {
          forall i | 0 <= i < |fs[0]| ensures !IsSpace(fs[0][i]) {
            if i > 0 { assert fs[0][i] == rest[0][i - 1]; }
          }
        }
      } else if !IsSpace(s[0]) {
        var fs := [[s[0]]] + rest;
        assert forall i :: 1 <= i < |fs| ==> fs[i] == rest[i - 1];
      }
    }
  }

  /** Together the fields hold exactly the non-space code points of `s`, in
      order. */
  lemma {:induction false} FieldsKeepNonSpace(s: string)
    ensures Concat(Fields(s)) == NonSpace(s)
  {
    if |s| > 0 {
      FieldsKeepNonSpace(s[1..]);
      var rest := Fields(s[1..]);
      if !IsSpace(s[0]) && |s| > 1 && !IsSpace(s[1]) {
        var fs := [[s[0]] + rest[0]] + rest[1..];
        assert fs[1..] == rest[1..];
        assert Concat(rest) == rest[0] + Concat(rest[1..]);
        assert Concat(fs) == [s[0]] + rest[0] + Concat(rest[1..]);
      } else if !IsSpace(s[0]) {
        var fs := [[s[0]]] + rest;
        assert fs[1..] == rest;
      }
    }
  }

  /** Words joined by single spaces. */
  function JoinWords(ws: seq<string>): string {
    if |ws| == 0 then [] else if |ws| == 1 then ws[0] else ws[0] + " " + JoinWords(ws[1..])
  }

  /** Fields splits words joined by spaces back into those words. */
  lemma {:induction false} FieldsJoinWords(ws: seq<string>)
    requires forall i :: 0 <= i < |ws| ==> Word(ws[i])
    ensures Fields(JoinWords(ws)) == ws
  {
    if |ws| == 1 {
      FieldsWord(ws[0], []);
      assert ws[0] + [] == ws[0];
    } else if |ws| > 1 {
      FieldsJoinWords(ws[1..]);
      FieldsWord(ws[0], " " + JoinWords(ws[1..]));
      assert ws[0] + " " + JoinWords(ws[1..]) == ws[0] + (" " + JoinWords(ws[1..]));
      var rest := " " + JoinWords(ws[1..]);
      assert rest[1..] == JoinWords(ws[1..]);
      assert [ws[0]] + ws[1..] == ws;
    }
  }

  /** A word followed by nothing or by white space is one field. */
  lemma {:induction false} FieldsWord(w: string, rest: string)
    requires Word(w)
    requires rest == [] || IsSpace(rest[0])
    ensures Fields(w + rest) == [w] + Fields(rest)
  {
    var s := w + rest;
    if |w| == 1 {
      assert s[1..] == rest && w == [s[0]];
      assert |s| > 1 ==> s[1] == rest[0];
    } else {
      assert s[1..] == w[1..] + rest;
      FieldsWord(w[1..], rest);
      assert [w[0]] + w[1..] == w;
    }
  }

  /** Every white-space code point ends a field: the fields of a text cut at
      a space are the fields before it followed by the fields after it. With
      FieldsWord this fixes where each field begins and ends. */
  lemma {:induction false} FieldsAtSpace(a: string, c: char, b: string)
    requires IsSpace(c)
    ensures Fields(a + [c] + b) == Fields(a) + Fields(b)
  {
    var s := a + [c] + b;
    if |a| == 0 {
      assert s == [c] + b && s[1..] == b;
    } else {
      assert s[1..] == a[1..] + [c] + b;
      FieldsAtSpace(a[1..], c, b);
      if |a| > 1 {
        assert s[1] == a[1];
      } else {
        assert s[1] == c;
      }
    }
  }

  // ---------------------------------------------------------------------
  // strings.Contains

  /** `sub` occurs in `s` starting at index `i`. */
  ghost predicate OccursAt(s: string, sub: string, i: int) {
    0 <= i <= |s| - |sub| && s[i..i + |sub|] == sub
  }

  /** `strings.Contains(s, sub)`: some occurrence of `sub` lies inside `s`
      (always so for an empty `sub`). */
  function Contains(s: string, sub: string): (b: bool)
    ensures b <==> exists i :: OccursAt(s, sub, i)
  {
    if sub <= s then
      assert OccursAt(s, sub, 0);
      true
    else if |s| == 0 then
      false
    else
      var b := Contains(s[1..], sub);
      assert forall i :: OccursAt(s[1..], sub, i) <==> OccursAt(s, sub, i + 1) by {
        forall i ensures OccursAt(s[1..], sub, i) <==> OccursAt(s, sub, i + 1) {
          if 0 <= i <= |s| - 1 - |sub| { assert s[1..][i..i + |sub|] == s[i + 1..i + 1 + |sub|]; }
        }
      }
      assert b ==> exists i :: OccursAt(s, sub, i) by {
        if b { var i :| OccursAt(s[1..], sub, i); assert OccursAt(s, sub, i + 1); }
      }
      assert OccursAt(s, sub, 0) ==> sub <= s;
      assert (exists i :: OccursAt(s, sub, i)) ==> b by {
        if exists i :: OccursAt(s, sub, i) {
          var i :| OccursAt(s, sub, i);
          assert OccursAt(s[1..], sub, i - 1);
        }
      }
      b
  }

  // ---------------------------------------------------------------------
  // Small texts

  lemma NoSpaceNoNewLine(s: string)
    requires NoSpace(s)
    ensures NewLine !in s
  {
  }

  lemma WordsNoNewLine(a: string, b: string)
    requires NoSpace(a) && NoSpace(b)
    ensures NewLine !in a + " " + b
  {
    NoSpaceNoNewLine(a);
    NoSpaceNoNewLine(b);
  }

  lemma ThreeFields(a: string, b: string, c: string)
    requires Word(a) && Word(b) && Word(c)
    ensures Fields(a + " " + b + " " + c) == [a, b, c]
  {
    JoinThreeWords(a, b, c);
    FieldsJoinWords([a, b, c]);
  }

  lemma JoinThreeWords(a: string, b: string, c: string)
    ensures JoinWords([a, b, c]) == a + " " + b + " " + c
  {
    var ws := [a, b, c];
    assert ws[1..] == [b, c] && ws[1..][1..] == [c];
    assert JoinWords([c]) == c;
    assert JoinWords([b, c]) == b + " " + c;
    assert JoinWords(ws) == a + " " + JoinWords([b, c]);
  }

  lemma ThreeLines(a: string, b: string, c: string)
    requires NewLine !in a && NewLine !in b && NewLine !in c
    ensures SplitLines(a + [NewLine] + b + [NewLine] + c) == [a, b, c]
  {
    JoinThreeLines(a, b, c);
    SplitJoinLines([a, b, c]);
  }

  lemma JoinThreeLines(a: string, b: string, c: string)
    ensures JoinLines([a, b, c]) == a + [NewLine] + b + [NewLine] + c
  {
    var lines := [a, b, c];
    assert lines[1..] == [b, c] && lines[1..][1..] == [c];
    assert JoinLines([c]) == c;
    assert JoinLines([b, c]) == b + [NewLine] + c;
    assert JoinLines(lines) == a + [NewLine] + JoinLines([b, c]);
  }
}
