/**
 * The parts of Go's `strings` and `unicode` packages that the exec client relies on:
 * `unicode.IsSpace`, `strings.Fields`, `strings.TrimSpace` and `strings.Replace` with a
 * one-character pattern. Strings are sequences of runes.
 */
module GoStrings {

  /** `unicode.IsSpace`: the Latin-1 spaces plus the other Unicode White_Space runes. */
  predicate IsSpace(c: char) {
    || c == '\t' || c == '\n' || c == '\U{B}' || c == '\U{C}' || c == '\r' || c == ' '
    || c == '\U{85}' || c == '\U{A0}' || c == '\U{1680}'
    || ('\U{2000}' <= c <= '\U{200A}')
    || c == '\U{2028}' || c == '\U{2029}' || c == '\U{202F}' || c == '\U{205F}' || c == '\U{3000}'
  }

  /** No character of `s` is white space. */
  predicate NoSpace(s: string) {
    forall i :: 0 <= i < |s| ==> !IsSpace(s[i])
  }

  /** Every character of `s` is white space. */
  predicate AllSpace(s: string) {
    forall i :: 0 <= i < |s| ==> IsSpace(s[i])
  }

  /** A field as `strings.Fields` produces it: non-empty and free of white space. */
  predicate IsToken(t: string) {
    |t| > 0 && NoSpace(t)
  }

  /** The characters of `s` that are not white space, in order. */
  function NonSpace(s: string): (r: string)
    ensures NoSpace(r)
    ensures |r| <= |s|
  {
    if s == [] then []
    else if IsSpace(s[0]) then NonSpace(s[1..])
    else [s[0]] + NonSpace(s[1..])
  }

  /** All the sequences of `ts`, concatenated in order. */
  function Concat<T>(ts: seq<seq<T>>): seq<T> {
    if ts == [] then [] else ts[0] + Concat(ts[1..])
  }

  /** `strings.Join(ts, sep)`. */
  function Join(ts: seq<string>, sep: string): string {
    if |ts| == 0 then []
    else if |ts| == 1 then ts[0]
    else ts[0] + sep + Join(ts[1..], sep)
  }

  /** Length of the longest prefix of `s` that holds no white space. */
  function TokenLength(s: string): (n: nat)
    ensures n <= |s|
    ensures NoSpace(s[..n])
    ensures n < |s| ==> IsSpace(s[n])
  {
    if s == [] || IsSpace(s[0]) then 0 else 1 + TokenLength(s[1..])
  }

  /**
   * `strings.Fields(s)`: the maximal runs of non-space characters of `s`, left to right.
   * Every field is a token.
   */
  function Fields(s: string): (ts: seq<string>)
    ensures forall i :: 0 <= i < |ts| ==> IsToken(ts[i])
    decreases |s|
  {
    if s == [] then []
    else if IsSpace(s[0]) then Fields(s[1..])
    else
      var n := TokenLength(s);
      [s[..n]] + Fields(s[n..])
  }

  /** Number of leading white-space characters of `s`. */
  function LeadingSpace(s: string): (n: nat)
    ensures n <= |s|
    ensures AllSpace(s[..n])
    ensures n < |s| ==> !IsSpace(s[n])
  {
    if s != [] && IsSpace(s[0]) then 1 + LeadingSpace(s[1..]) else 0
  }

  /** Number of trailing white-space characters of `s`. */
  function TrailingSpace(s: string): (n: nat)
    ensures n <= |s|
    ensures AllSpace(s[|s| - n..])
    ensures n < |s| ==> !IsSpace(s[|s| - n - 1])
  {
    if s != [] && IsSpace(s[|s| - 1]) then 1 + TrailingSpace(s[..|s| - 1]) else 0
  }

  /** `strings.TrimSpace(s)`: `s` without its leading and trailing white space. */
  function TrimSpace(s: string): string {
    var rest := s[LeadingSpace(s)..];
    rest[..|rest| - TrailingSpace(rest)]
  }

  /**
   * `strings.Replace(s, [pat], repl, -1)`: every occurrence of the one-character string
   * `[pat]` in `s` replaced by `repl`, left to right.
   */
  function ReplaceAll(s: string, pat: char, repl: string): string {
    if s == [] then []
    else (if s[0] == pat then repl else [s[0]]) + ReplaceAll(s[1..], pat, repl)
  }

  // ---------------------------------------------------------------------------
  // Fields

  /** The fields, concatenated, are exactly the non-space characters of `s`, in order. */
  lemma {:induction false} FieldsConcat(s: string)
    ensures Concat(Fields(s)) == NonSpace(s)
    decreases |s|
  {
    if s == [] {
    } else if IsSpace(s[0]) {
      FieldsConcat(s[1..]);
    } else {
      var n := TokenLength(s);
      FieldsConcat(s[n..]);
      NonSpaceOfToken(s[..n], s[n..]);
      assert s == s[..n] + s[n..];
      assert Fields(s) == [s[..n]] + Fields(s[n..]);
      assert Concat(Fields(s)) == s[..n] + Concat(Fields(s[n..]));
    }
  }

  lemma {:induction false} NonSpaceOfToken(t: string, rest: string)
    requires NoSpace(t)
    ensures NonSpace(t + rest) == t + NonSpace(rest)
    decreases |t|
  {
    if t != [] {
      var s := t + rest;
      assert s[0] == t[0] && !IsSpace(t[0]);
      assert s[1..] == t[1..] + rest;
      assert NonSpace(s) == [t[0]] + NonSpace(t[1..] + rest);
      NonSpaceOfToken(t[1..], rest);
      assert [t[0]] + (t[1..] + NonSpace(rest)) == ([t[0]] + t[1..]) + NonSpace(rest);
      assert [t[0]] + t[1..] == t;
    } else {
      assert t + rest == rest;
    }
  }

  /** A string has no fields exactly when it is all white space (the empty string included). */
  lemma {:induction false} FieldsEmpty(s: string)
    ensures Fields(s) == [] <==> AllSpace(s)
    decreases |s|
  {
    if s != [] {
      FieldsEmpty(s[1..]);
      if IsSpace(s[0]) {
        assert AllSpace(s) <==> AllSpace(s[1..]) by {
          if AllSpace(s[1..]) {
            forall i | 0 <= i < |s| ensures IsSpace(s[i]) {
              if i > 0 { assert s[i] == s[1..][i - 1]; }
            }
          }
        }
      }
    }
  }

  /** A token followed by a space (or nothing) becomes the first field. */
  lemma {:induction false} FieldsAfterToken(t: string, rest: string)
    requires IsToken(t)
    requires rest == [] || IsSpace(rest[0])
    ensures Fields(t + rest) == [t] + Fields(rest)
  {
    var s := t + rest;
    TokenLengthOf(t, rest);
    assert s[..|t|] == t;
    assert s[|t|..] == rest;
  }

  lemma {:induction false} TokenLengthOf(t: string, rest: string)
    requires NoSpace(t)
    requires rest == [] || IsSpace(rest[0])
    ensures TokenLength(t + rest) == |t|
    decreases |t|
  {
    if t != [] {
      assert (t + rest)[1..] == t[1..] + rest;
      TokenLengthOf(t[1..], rest);
    } else {
      assert t + rest == rest;
    }
  }

  /** Leading white space does not change the fields. */
  lemma {:induction false} FieldsAfterSpace(w: string, s: string)
    requires AllSpace(w)
    ensures Fields(w + s) == Fields(s)
    decreases |w|
  {
    if w != [] {
      assert (w + s)[1..] == w[1..] + s;
      FieldsAfterSpace(w[1..], s);
    } else {
      assert w + s == s;
    }
  }

  /**
   * Any non-empty run of white space separates fields: the fields of `a + w + b` are the
   * fields of `a` followed by the fields of `b`, however long the run and whatever runes
   * it holds.
   */
  lemma {:induction false} FieldsSplit(a: string, w: string, b: string)
    requires w != [] && AllSpace(w)
    ensures Fields(a + w + b) == Fields(a) + Fields(b)
    decreases |a|
  {
    var s := a + w + b;
    if a == [] {
      assert s == w + b;
      FieldsAfterSpace(w, b);
    } else if IsSpace(a[0]) {
      assert s[1..] == a[1..] + w + b;
      FieldsSplit(a[1..], w, b);
    } else {
      assert (w + b)[0] == w[0];
      TokenLengthBefore(a, w + b);
      assert s == a + (w + b);
      var n := TokenLength(a);
      assert s[..n] == a[..n];
      assert s[n..] == a[n..] + w + b;
      FieldsSplit(a[n..], w, b);
    }
  }

  /** A token ends no later than the white space that follows its string. */
  lemma {:induction false} TokenLengthBefore(a: string, r: string)
    requires r != [] && IsSpace(r[0])
    ensures TokenLength(a + r) == TokenLength(a)
    decreases |a|
  {
    if a == [] {
      assert a + r == r;
    } else {
      assert (a + r)[0] == a[0];
      assert (a + r)[1..] == a[1..] + r;
      TokenLengthBefore(a[1..], r);
    }
  }

  /**
   * Splitting a single-space-joined list of tokens gives the tokens back: `strings.Fields`
   * is a left inverse of `strings.Join(_, " ")` on tokens.
   */
  lemma {:induction false} FieldsOfJoin(ts: seq<string>)
    requires forall i :: 0 <= i < |ts| ==> IsToken(ts[i])
    ensures Fields(Join(ts, " ")) == ts
    decreases |ts|
  {
    if |ts| == 1 {
      FieldsAfterToken(ts[0], []);
      assert ts[0] + [] == ts[0];
    } else if |ts| > 1 {
      var tail := ts[1..];
      var rest := Join(tail, " ");
      assert Join(ts, " ") == ts[0] + (" " + rest);
      forall i | 0 <= i < |tail| ensures IsToken(tail[i]) {
        assert tail[i] == ts[i + 1];
      }
      FieldsOfJoin(tail);
      assert IsSpace((" " + rest)[0]);
      FieldsAfterToken(ts[0], " " + rest);
      assert AllSpace(" ");
      FieldsAfterSpace(" ", rest);
      assert ts == [ts[0]] + tail;
    }
  }

  /** Re-joining the fields with single spaces and splitting again changes nothing. */
  lemma FieldsNormalForm(s: string)
    ensures Fields(Join(Fields(s), " ")) == Fields(s)
  {
    FieldsOfJoin(Fields(s));
  }

  // ---------------------------------------------------------------------------
  // TrimSpace

  /**
   * `TrimSpace(s)` is the slice `s[i..j]` with only white space before `i` and after `j`,
   * and it neither starts nor ends with white space.
   */
  lemma TrimSpaceSlice(s: string) returns (i: nat, j: nat)
    ensures i <= j <= |s|
    ensures TrimSpace(s) == s[i..j]
    ensures AllSpace(s[..i]) && AllSpace(s[j..])
    ensures i < j ==> !IsSpace(s[i]) && !IsSpace(s[j - 1])
  {
    i := LeadingSpace(s);
    var rest := s[i..];
    var k := TrailingSpace(rest);
    assert TrimSpace(s) == rest[..|rest| - k];
    j := |s| - k;
    if k == |rest| {
      j := i;
      assert s[j..] == rest == rest[|rest| - k..];
      assert TrimSpace(s) == [] == s[i..j];
    } else {
      assert rest[..|rest| - k] == s[i..j];
      assert s[j..] == rest[|rest| - k..];
      assert s[j - 1] == rest[|rest| - k - 1];
    }
  }

  /** Trimming yields the empty string exactly for all-space input. */
  lemma TrimSpaceEmpty(s: string)
    ensures TrimSpace(s) == [] <==> AllSpace(s)
  {
    var i, j := TrimSpaceSlice(s);
    if i == j {
      assert AllSpace(s) by {
        forall k | 0 <= k < |s| ensures IsSpace(s[k]) {
          if k < i { assert s[k] == s[..i][k]; } else { assert s[k] == s[j..][k - j]; }
        }
      }
    }
  }

  /** Trimming keeps every non-space character: it removes white space only. */
  lemma TrimSpaceKeepsText(s: string)
    ensures NonSpace(TrimSpace(s)) == NonSpace(s)
  {
    var i, j := TrimSpaceSlice(s);
    assert s == s[..i] + s[i..j] + s[j..];
    NonSpaceAppend(s[..i] + s[i..j], s[j..]);
    NonSpaceAppend(s[..i], s[i..j]);
    NonSpaceOfSpace(s[..i]);
    NonSpaceOfSpace(s[j..]);
  }

  /** Trimming twice is the same as trimming once. */
  lemma TrimSpaceIdempotent(s: string)
    ensures TrimSpace(TrimSpace(s)) == TrimSpace(s)
  {
    var i, j := TrimSpaceSlice(s);
    var t := s[i..j];
    if i < j {
      assert !IsSpace(t[0]) && !IsSpace(t[|t| - 1]);
      assert LeadingSpace(t) == 0;
      assert t[0..] == t;
      assert TrailingSpace(t) == 0;
    }
  }

  lemma {:induction false} NonSpaceAppend(a: string, b: string)
    ensures NonSpace(a + b) == NonSpace(a) + NonSpace(b)
    decreases |a|
  {
    if a != [] {
      assert (a + b)[1..] == a[1..] + b;
      NonSpaceAppend(a[1..], b);
    } else {
      assert a + b == b;
    }
  }

  lemma {:induction false} NonSpaceOfSpace(w: string)
    requires AllSpace(w)
    ensures NonSpace(w) == []
    decreases |w|
  {
    if w != [] { NonSpaceOfSpace(w[1..]); }
  }

  // ---------------------------------------------------------------------------
  // Replace

  /** Replacement works piecewise: it distributes over concatenation. */
  lemma {:induction false} ReplaceAllAppend(a: string, b: string, pat: char, repl: string)
    ensures ReplaceAll(a + b, pat, repl) == ReplaceAll(a, pat, repl) + ReplaceAll(b, pat, repl)
    decreases |a|
  {
    if a != [] {
      assert (a + b)[1..] == a[1..] + b;
      ReplaceAllAppend(a[1..], b, pat, repl);
    } else {
      assert a + b == b;
    }
  }

  /** A string without the pattern character is left unchanged. */
  lemma {:induction false} ReplaceAllAbsent(s: string, pat: char, repl: string)
    requires pat !in s
    ensures ReplaceAll(s, pat, repl) == s
    decreases |s|
  {
    if s != [] {
      assert s[0] != pat;
      assert s == [s[0]] + s[1..];
      ReplaceAllAbsent(s[1..], pat, repl);
      assert s == [s[0]] + s[1..];
    }
  }
}
