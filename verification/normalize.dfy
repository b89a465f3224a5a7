/**
 * Query normalisation, `QueryEngine.normalizeQuery`, and the blank test of
 * `QueryEngine.query`: split on runs of the space character, lower-case each
 * piece, delete the characters `!()_,.?`, and drop the pieces left empty.
 *
 * Case folding is ASCII only and whitespace is the ASCII part of Java's
 * `Character.isWhitespace`.
 */
module Normalize {

  /** `Character.isWhitespace` on the ASCII range. */
  predicate IsWhitespace(c: char)
  {
    c == ' ' || c == '\t' || c == '\n' || c == '\U{000B}' || c == '\U{000C}' || c == '\r'
    || ('\U{001C}' <= c <= '\U{001F}')
  }

  /** `String.isBlank`: empty or whitespace only. */
  predicate IsBlank(s: string)
  {
    forall i :: 0 <= i < |s| ==> IsWhitespace(s[i])
  }

  /** The characters of the character class `[!()_,.?]`. */
  predicate IsStripped(c: char)
  {
    c == '!' || c == '(' || c == ')' || c == '_' || c == ',' || c == '.' || c == '?'
  }

  predicate IsUpper(c: char)
  {
    'A' <= c <= 'Z'
  }

  function ToLower(c: char): char
  {
    if IsUpper(c) then (c as int + 32) as char else c
  }

  /** `String.toLowerCase`, ASCII letters only. */
  function LowerCase(s: string): (r: string)
    ensures |r| == |s|
    ensures forall i :: 0 <= i < |s| ==> r[i] == ToLower(s[i]) && !IsUpper(r[i])
    decreases |s|
  {
    if s == [] then [] else [ToLower(s[0])] + LowerCase(s[1..])
  }

  /** `replaceAll("[!()_,.?]", "")`. */
  function StripPunctuation(s: string): (r: string)
    decreases |s|
  {
    if s == [] then []
    else if IsStripped(s[0]) then StripPunctuation(s[1..])
    else [s[0]] + StripPunctuation(s[1..])
  }

  /** One piece of the split query, lower-cased and stripped. */
  function NormalizeTerm(w: string): string
  {
    StripPunctuation(LowerCase(w))
  }

  /** The index of the first space of `s`, or `|s|` when there is none. */
  function FirstSpace(s: string): (i: nat)
    ensures i <= |s| && (i < |s| ==> s[i] == ' ')
    ensures forall k :: 0 <= k < i ==> s[k] != ' '
    decreases |s|
  {
    if s == [] || s[0] == ' ' then 0 else 1 + FirstSpace(s[1..])
  }

  /** The end of the run of spaces that starts at `i`. */
  function RunEnd(s: string, i: nat): (j: nat)
    requires i <= |s|
    ensures i <= j <= |s| && (j < |s| ==> s[j] != ' ')
    ensures forall k :: i <= k < j ==> s[k] == ' '
    decreases |s| - i
  {
    if i == |s| || s[i] != ' ' then i else RunEnd(s, i + 1)
  }

  /** The pieces between maximal runs of spaces, empty ones included. */
  function SplitRuns(s: string): (ps: seq<string>)
    ensures ps != []
    ensures forall k :: 0 <= k < |ps| ==> ' ' !in ps[k]
    decreases |s|
  {
    var i := FirstSpace(s);
    if i == |s| then [s]
    else
      var j := RunEnd(s, i);
      assert ' ' !in s[..i] by {
        forall k | 0 <= k < i
          ensures s[..i][k] != ' '
        {
        }
      }
      [s[..i]] + SplitRuns(s[j..])
  }

  function DropTrailingEmpty(ps: seq<string>): (r: seq<string>)
    ensures |r| <= |ps| && r == ps[..|r|]
    ensures r != [] ==> r[|r| - 1] != ""
    decreases |ps|
  {
    if ps != [] && ps[|ps| - 1] == "" then DropTrailingEmpty(ps[..|ps| - 1]) else ps
  }

  /**
   * `String.split(" +")` (the Java literal "\s+" is the regular expression
   * " +"): the input itself when it has no space; otherwise the pieces
   * between runs of spaces, a leading empty piece kept and trailing empty
   * pieces removed.
   */
  function JavaSplit(s: string): (ps: seq<string>)
    ensures forall k :: 0 <= k < |ps| ==> ' ' !in ps[k]
  {
    if FirstSpace(s) == |s| then
      assert ' ' !in s by {
        forall k | 0 <= k < |s|
          ensures s[k] != ' '
        {
        }
      }
      [s]
    else DropTrailingEmpty(SplitRuns(s))
  }

  /** The stream pipeline: map each piece, keep the non-empty results. */
  function NormalizeAll(ws: seq<string>): seq<string>
    decreases |ws|
  {
    if ws == [] then []
    else
      var t := NormalizeTerm(ws[0]);
      (if t == [] then [] else [t]) + NormalizeAll(ws[1..])
  }

  function NormalizeQuery(q: string): seq<string>
  {
    NormalizeAll(JavaSplit(q))
  }

  /** A term as `normalizeQuery` emits it: non-empty, lower case, no space and no stripped character. */
  predicate IsNormalTerm(t: string)
  {
    t != [] && forall i :: 0 <= i < |t| ==> t[i] != ' ' && !IsStripped(t[i]) && !IsUpper(t[i])
  }

  lemma {:induction false} StripPunctuationSpec(s: string)
    ensures forall i :: 0 <= i < |StripPunctuation(s)| ==>
      !IsStripped(StripPunctuation(s)[i]) && StripPunctuation(s)[i] in s
    ensures (forall i :: 0 <= i < |s| ==> !IsStripped(s[i])) ==> StripPunctuation(s) == s
    decreases |s|
  {
    if s != [] {
      StripPunctuationSpec(s[1..]);
      var r := StripPunctuation(s[1..]);
      forall i | 0 <= i < |r|
        ensures r[i] in s
      {
        assert r[i] in s[1..];
      }
    }
  }

  lemma {:induction false} LowerCaseIdentity(s: string)
    requires forall i :: 0 <= i < |s| ==> !IsUpper(s[i])
    ensures LowerCase(s) == s
  {
  }

  lemma {:induction false} NormalizeAllSpec(ws: seq<string>)
    requires forall k :: 0 <= k < |ws| ==> ' ' !in ws[k]
    ensures forall k :: 0 <= k < |NormalizeAll(ws)| ==> IsNormalTerm(NormalizeAll(ws)[k])
    decreases |ws|
  {
    if ws != [] {
      NormalizeAllSpec(ws[1..]);
      var t := NormalizeTerm(ws[0]);
      StripPunctuationSpec(LowerCase(ws[0]));
      forall i | 0 <= i < |t|
        ensures t[i] != ' ' && !IsUpper(t[i])
      {
        var lower := LowerCase(ws[0]);
        assert t[i] in lower;
        var k :| 0 <= k < |lower| && lower[k] == t[i];
        assert lower[k] == ToLower(ws[0][k]);
        assert ws[0][k] != ' ';
      }
    }
  }

  /**
   * Every term `normalizeQuery` returns is non-empty, contains no space, no
   * upper-case letter and none of `!()_,.?`.
   */
  lemma NormalizeQuerySpec(q: string)
    ensures forall k :: 0 <= k < |NormalizeQuery(q)| ==> IsNormalTerm(NormalizeQuery(q)[k])
  {
    NormalizeAllSpec(JavaSplit(q));
  }

  /** Re-normalising a normalised term leaves it unchanged. */
  lemma NormalTermFixed(t: string)
    requires IsNormalTerm(t)
    ensures NormalizeTerm(t) == t
    ensures NormalizeQuery(t) == [t]
  {
    LowerCaseIdentity(t);
    StripPunctuationSpec(t);
    assert FirstSpace(t) == |t|;
    assert NormalizeAll([t]) == [t] + NormalizeAll([]);
  }

  /** The query string whose split gives back `ws`: the terms joined by single spaces. */
  function Join(ws: seq<string>): string
    decreases |ws|
  {
    if ws == [] then ""
    else if |ws| == 1 then ws[0]
    else ws[0] + " " + Join(ws[1..])
  }

  lemma {:induction false} JoinStartsWithTerm(ws: seq<string>)
    requires ws != [] && ws[0] != []
    ensures Join(ws) != [] && Join(ws)[0] == ws[0][0]
  {
  }

  lemma {:induction false} SplitRunsJoin(ws: seq<string>)
    requires ws != []
    requires forall k :: 0 <= k < |ws| ==> ws[k] != [] && ' ' !in ws[k]
    ensures SplitRuns(Join(ws)) == ws
    decreases |ws|
  {
    var w := ws[0];
    if |ws| == 1 {
      assert FirstSpace(w) == |w| by {
        FirstSpaceAbsent(w);
      }
    } else {
      var rest := Join(ws[1..]);
      var s := w + " " + rest;
      assert Join(ws) == s;
      FirstSpaceAbsent(w);
      FirstSpacePrefix(w, " " + rest);
      assert s == w + (" " + rest);
      assert FirstSpace(" " + rest) == 0;
      JoinStartsWithTerm(ws[1..]);
      assert RunEnd(s, |w| + 1) == |w| + 1;
      assert RunEnd(s, |w|) == |w| + 1;
      assert s[..|w|] == w;
      assert s[|w| + 1..] == rest;
      SplitRunsJoin(ws[1..]);
    }
  }

  lemma {:induction false} FirstSpaceAbsent(w: string)
    requires ' ' !in w
    ensures FirstSpace(w) == |w|
    decreases |w|
  {
    if w != [] {
      assert ' ' !in w[1..] by {
        forall k | 0 <= k < |w[1..]|
          ensures w[1..][k] != ' '
        {
          assert w[1..][k] == w[k + 1];
        }
      }
      FirstSpaceAbsent(w[1..]);
    }
  }

  lemma {:induction false} FirstSpacePrefix(w: string, s: string)
    requires ' ' !in w
    ensures FirstSpace(w + s) == |w| + FirstSpace(s)
    decreases |w|
  {
    if w != [] {
      assert (w + s)[0] == w[0] != ' ';
      assert (w + s)[1..] == w[1..] + s;
      assert ' ' !in w[1..] by {
        forall k | 0 <= k < |w[1..]|
          ensures w[1..][k] != ' '
        {
          assert w[1..][k] == w[k + 1];
        }
      }
      FirstSpacePrefix(w[1..], s);
    } else {
      assert w + s == s;
    }
  }

  lemma {:induction false} NormalizeAllFixed(ts: seq<string>)
    requires forall k :: 0 <= k < |ts| ==> IsNormalTerm(ts[k])
    ensures NormalizeAll(ts) == ts
    decreases |ts|
  {
    if ts != [] {
      NormalTermFixed(ts[0]);
      NormalizeAllFixed(ts[1..]);
    }
  }

  /**
   * Normalisation is a fixed point: normalising the normalised terms, joined
   * by spaces into a query again, gives the same terms.
   */
  lemma NormalizeQueryIdempotent(q: string)
    ensures NormalizeQuery(Join(NormalizeQuery(q))) == NormalizeQuery(q)
  {
    var ts := NormalizeQuery(q);
    NormalizeQuerySpec(q);
    NormalizeAllFixed(ts);
    if ts == [] {
      assert Join(ts) == "";
      assert JavaSplit("") == [""];
    } else {
      SplitRunsJoin(ts);
      if FirstSpace(Join(ts)) != |Join(ts)| {
        assert DropTrailingEmpty(ts) == ts;
      }
      if FirstSpace(Join(ts)) == |Join(ts)| {
        assert SplitRuns(Join(ts)) == [Join(ts)];
      }
    }
  }
}
