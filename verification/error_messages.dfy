/**
 Normalisation of the Campaign Manager per-conversion error messages
 (dfa_reporting.js, `extraFailedLines_`): `message.replace(/.*error: /, '')`.

 The replacement is modelled with JavaScript's regular-expression semantics:
 the pattern has no `g` flag, so only the first match is removed; the match
 starts at the leftmost position from which the pattern can match, and the
 greedy `.*` makes it end as late as possible. `.` matches every character
 except the line terminators `\n`, `\r`, U+2028 and U+2029.
 */
module ErrorMessages {
  import opened Wrappers

  /** The literal that ends the pattern. */
  const Marker: string := "error: "

  predicate IsLineTerminator(c: char) {
    c == '\n' || c == '\r' || c == '\U{2028}' || c == '\U{2029}'
  }

  /** `Marker` occurs in `m` starting at index `i`. */
  predicate OccursAt(m: string, i: int) {
    0 <= i && i + |Marker| <= |m| && m[i..i + |Marker|] == Marker
  }

  predicate ContainsMarker(m: string) {
    exists i :: 0 <= i < |m| && OccursAt(m, i)
  }

  predicate SingleLine(m: string) {
    forall k :: 0 <= k < |m| ==> !IsLineTerminator(m[k])
  }

  /** The index of the first line terminator at or after `p`, or `|m|`:
      the end of the run of characters `.` can match from `p`. */
  function LineEnd(m: string, p: nat): (r: nat)
    requires p <= |m|
    ensures p <= r <= |m|
    ensures forall k :: p <= k < r ==> !IsLineTerminator(m[k])
    ensures r < |m| ==> IsLineTerminator(m[r])
    decreases |m| - p
  {
    if p == |m| || IsLineTerminator(m[p]) then p else LineEnd(m, p + 1)
  }

  /** `m[p..e]` is matched by `/.*error: /`: line-terminator-free characters
      ending with the marker. */
  predicate IsMatch(m: string, p: int, e: int) {
    && 0 <= p <= |m|
    && p + |Marker| <= e <= LineEnd(m, p)
    && OccursAt(m, e - |Marker|)
  }

  /** The marker itself holds no line terminator. */
  lemma MarkerIsSingleLine(m: string, i: int)
    requires OccursAt(m, i)
    ensures forall k :: i <= k < i + |Marker| ==> !IsLineTerminator(m[k])
  {
    forall k | i <= k < i + |Marker|
      ensures !IsLineTerminator(m[k])
    {
      assert m[k] == m[i..i + |Marker|][k - i] == Marker[k - i];
    }
  }

  /** So every occurrence of the marker is itself a match. */
  lemma OccurrenceIsMatch(m: string, i: int)
    requires OccursAt(m, i)
    ensures IsMatch(m, i, i + |Marker|)
  {
    MarkerIsSingleLine(m, i);
  }

  /** The greedy end of a match starting at `p`, searched backwards from
      `e`: the largest end not after `e` at which the marker finishes.
      Called with `e == LineEnd(m, p)` it is the longest match from `p`. */
  function LastMatchEnd(m: string, p: nat, e: int): (r: Option<nat>)
    requires p <= |m|
    requires e <= LineEnd(m, p)
    ensures r.Some? ==> IsMatch(m, p, r.value) && forall e' :: IsMatch(m, p, e') && e' <= e ==> e' <= r.value
    ensures r.None? ==> forall e' :: IsMatch(m, p, e') ==> e < e'
    decreases e
  {
    if e < p + |Marker| then None
    else if OccursAt(m, e - |Marker|) then Some(e)
    else LastMatchEnd(m, p, e - 1)
  }

  /** The leftmost start at or after `p` from which the pattern matches,
      paired with the greedy end of that match. */
  function FindFrom(m: string, p: nat): (r: Option<(nat, nat)>)
    requires p <= |m|
    ensures r.Some? ==>
      && p <= r.value.0
      && IsMatch(m, r.value.0, r.value.1)
      && (forall e :: IsMatch(m, r.value.0, e) ==> e <= r.value.1)
      && (forall q, e :: p <= q < r.value.0 ==> !IsMatch(m, q, e))
    ensures r.None? ==> forall q, e :: p <= q ==> !IsMatch(m, q, e)
    decreases |m| - p
  {
    match LastMatchEnd(m, p, LineEnd(m, p))
    case Some(e) => Some((p, e))
    case None =>
      assert forall e :: !IsMatch(m, p, e);
      if p == |m| then None else FindFrom(m, p + 1)
  }

  /** `message.replace(/.*error: /, '')`. A message changes exactly when it
      contains the marker, and then loses at least the marker. */
  function Normalise(m: string): (r: string)
    ensures r == m <==> !ContainsMarker(m)
    ensures ContainsMarker(m) ==> |r| <= |m| - |Marker|
  {
    match FindFrom(m, 0)
    case None =>
      assert !ContainsMarker(m) by {
        forall i | 0 <= i < |m|
          ensures !OccursAt(m, i)
        {
          if OccursAt(m, i) {
            OccurrenceIsMatch(m, i);
          }
        }
      }
      m
    case Some((p, e)) =>
      assert OccursAt(m, e - |Marker|);
      m[..p] + m[e..]
  }

  /** On a single-line message holding the marker, normalisation keeps exactly
      the suffix after the LAST occurrence `q` of the marker. */
  lemma NormaliseKeepsSuffixAfterLastMarker(m: string) returns (q: int)
    requires SingleLine(m)
    requires ContainsMarker(m)
    ensures OccursAt(m, q)
    ensures forall q' :: OccursAt(m, q') ==> q' <= q
    ensures Normalise(m) == m[q + |Marker|..]
  {
    assert LineEnd(m, 0) == |m|;
    var i :| 0 <= i < |m| && OccursAt(m, i);
    assert IsMatch(m, 0, i + |Marker|);
    var found := FindFrom(m, 0);
    var (p, e) := found.value;
    assert p == 0;
    q := e - |Marker|;
    forall q' | OccursAt(m, q')
      ensures q' <= q
    {
      assert IsMatch(m, 0, q' + |Marker|);
    }
    assert Normalise(m) == m[e..];
  }

  /** An occurrence in a suffix is an occurrence in the whole message. */
  lemma OccursInSuffix(m: string, k: nat, j: nat)
    requires k <= |m|
    ensures OccursAt(m[k..], j) <==> OccursAt(m, k + j)
  {
    if j + |Marker| <= |m| - k {
      assert m[k..][j..j + |Marker|] == m[k + j..k + j + |Marker|];
    }
  }

  /** A single-line message normalises to a message without the marker. */
  lemma NormaliseSingleLineRemovesMarker(m: string)
    requires SingleLine(m)
    ensures !ContainsMarker(Normalise(m))
  {
    if ContainsMarker(m) {
      var q := NormaliseKeepsSuffixAfterLastMarker(m);
      forall j | 0 <= j < |Normalise(m)|
        ensures !OccursAt(Normalise(m), j)
      {
        OccursInSuffix(m, q + |Marker|, j);
      }
    }
  }

  /** Normalising twice equals normalising once exactly when the first
      result no longer contains the marker. */
  lemma NormaliseIdempotentIff(m: string)
    ensures Normalise(Normalise(m)) == Normalise(m) <==> !ContainsMarker(Normalise(m))
  {
  }

  /** So for single-line messages normalisation is idempotent. */
  lemma NormaliseSingleLineIdempotent(m: string)
    requires SingleLine(m)
    ensures Normalise(Normalise(m)) == Normalise(m)
  {
    NormaliseSingleLineRemovesMarker(m);
  }

  /** A single-line message whose last `e` starts a marker at `q` keeps just
      what follows that marker. */
  lemma NormaliseAfterOnlyMarker(m: string, q: int)
    requires SingleLine(m)
    requires OccursAt(m, q)
    requires forall k :: q < k < |m| ==> m[k] != 'e'
    ensures Normalise(m) == m[q + |Marker|..]
  {
    var last := NormaliseKeepsSuffixAfterLastMarker(m);
    assert m[last] == m[last..last + |Marker|][0] == 'e';
  }

  /** A message `code + "error: " + text` whose code and text are single
      lines and whose text holds no `e` normalises to the text. */
  lemma NormaliseDropsCode(code: string, text: string)
    requires SingleLine(code) && SingleLine(text)
    requires forall k :: 0 <= k < |text| ==> text[k] != 'e'
    ensures Normalise(code + Marker + text) == text
  {
    var m := code + Marker + text;
    var q := |code|;
    assert m[q..q + |Marker|] == Marker;
    MarkerIsSingleLine(m, q);
    assert SingleLine(m) by {
      forall k | 0 <= k < |m|
        ensures !IsLineTerminator(m[k])
      {
        if k < q { assert m[k] == code[k]; }
        else if k >= q + |Marker| { assert m[k] == text[k - q - |Marker|]; }
      }
    }
    forall k | q < k < |m|
      ensures m[k] != 'e'
    {
      if k < q + |Marker| {
        assert m[k] == Marker[k - q];
        assert Marker[1..] == "rror: ";
        assert Marker[k - q] == Marker[1..][k - q - 1];
      } else {
        assert m[k] == text[k - q - |Marker|];
      }
    }
    NormaliseAfterOnlyMarker(m, q);
    assert m[q + |Marker|..] == text;
  }

  /** Example: a Campaign Manager message with an HTTP-code prefix loses the
      prefix. */
  lemma NormaliseInvalidIdExample()
    ensures Normalise("400 error: INVALID_ID") == "INVALID_ID"
  {
    assert "400 error: INVALID_ID" == "400 " + Marker + "INVALID_ID";
    NormaliseDropsCode("400 ", "INVALID_ID");
  }

  lemma NormaliseMissingFieldExample()
    ensures Normalise("400 error: MISSING_FIELD") == "MISSING_FIELD"
  {
    assert "400 error: MISSING_FIELD" == "400 " + Marker + "MISSING_FIELD";
    NormaliseDropsCode("400 ", "MISSING_FIELD");
  }

  /** `LineEnd` is the first line terminator at or after `p`. */
  lemma LineEndIs(m: string, p: nat, k: nat)
    requires p <= k <= |m|
    requires forall i :: p <= i < k ==> !IsLineTerminator(m[i])
    requires k == |m| || IsLineTerminator(m[k])
    ensures LineEnd(m, p) == k
  {
  }

  /** Across lines the pattern stops at the first line terminator ... */
  lemma NormaliseStopsAtLineEnd()
    ensures Normalise("a error: b\nerror: c") == "b\nerror: c"
  {
    var m := "a error: b\nerror: c";
    assert m[2..9] == Marker;
    assert m[10] == '\n';
    assert m[..10] == "a error: b";
    LineEndIs(m, 0, 10);
    assert IsMatch(m, 0, 9);
    assert !OccursAt(m, 3) by { assert m[3] != 'e'; }
    forall e | IsMatch(m, 0, e)
      ensures e <= 9
    {
    }
    var found := FindFrom(m, 0);
    assert found == Some((0, 9));
    assert Normalise(m) == m[9..];
  }

  /** ... and matches on the first line that holds the marker, keeping the
      lines before it, so a second normalisation can change the message
      again. */
  lemma NormaliseSkipsLinesWithoutMarker()
    ensures Normalise("b\nerror: c") == "b\nc"
  {
    var n := "b\nerror: c";
    assert n[2..9] == Marker;
    LineEndIs(n, 2, 10);
    assert IsMatch(n, 2, 9);
    assert IsLineTerminator(n[1]);
    LineEndIs(n, 0, 1);
    LineEndIs(n, 1, 1);
    forall q, e | 0 <= q < 2
      ensures !IsMatch(n, q, e)
    {
    }
    assert !OccursAt(n, 3) by { assert n[3] != 'e'; }
    forall e | IsMatch(n, 2, e)
      ensures e <= 9
    {
    }
    var found := FindFrom(n, 0);
    assert found == Some((2, 9));
    assert Normalise(n) == n[..2] + n[9..];
  }
}
