/**
 Reconciling the response of `conversions.batchinsert` into a `BatchResult`
 (dfa_reporting.js, the `try`/`catch` of `getUploadConversionFn` and
 `extraFailedLines_`).
 */
module BatchResults {
  import opened Wrappers
  import opened ErrorMessages

  /** A `ConversionError`; only its message is read. */
  datatype ConversionError = ConversionError(message: string)

  /** A `ConversionStatus`; `errors` is `None` when the property is absent.
      A present but empty list still marks the line as failed. */
  datatype ConversionStatus = ConversionStatus(errors: Option<seq<ConversionError>>)

  /** What the remote call gave: a thrown error (its `message` and its
      `toString()`), or a response with the `hasFailures` flag and the
      per-conversion statuses. */
  datatype RemoteOutcome =
    | Threw(message: string, description: string)
    | Responded(hasFailures: bool, statuses: seq<ConversionStatus>)

  /** `BatchResult`; the optional properties are `None` when never set. */
  datatype BatchResult = BatchResult(
    result: bool,
    numberOfLines: nat,
    failedLines: Option<seq<string>>,
    groupedFailed: Option<map<string, seq<string>>>,
    errors: Option<seq<string>>)

  /** A (normalised message, failed line) pair: one per reported error. */
  type ErrorPair = (string, string)

  /** The pairs the errors `es` of one failed line contribute, in order:
      one per error, each pairing its normalised message with the line. */
  function ErrorPairs(es: seq<ConversionError>, line: string): (r: seq<ErrorPair>)
    ensures |r| == |es|
    ensures forall k :: 0 <= k < |r| ==> r[k] == (Normalise(es[k].message), line)
    decreases |es|
  {
    if |es| == 0 then []
    else ErrorPairs(es[..|es| - 1], line) + [(Normalise(es[|es| - 1].message), line)]
  }

  /** The pairs one status contributes; none when it has no `errors`. */
  function PairsOf(status: ConversionStatus, line: string): seq<ErrorPair> {
    match status.errors
    case None => []
    case Some(es) => ErrorPairs(es, line)
  }

  /** All pairs, in status order and then error order. */
  function Failures(statuses: seq<ConversionStatus>, lines: seq<string>): seq<ErrorPair>
    requires |statuses| <= |lines|
    decreases |statuses|
  {
    if |statuses| == 0 then []
    else Failures(statuses[..|statuses| - 1], lines) + PairsOf(statuses[|statuses| - 1], lines[|statuses| - 1])
  }

  /** The indices of the statuses that carry an `errors` property. */
  function FailedIndices(statuses: seq<ConversionStatus>): (r: seq<nat>)
    ensures forall k :: 0 <= k < |r| ==> r[k] < |statuses|
    decreases |statuses|
  {
    if |statuses| == 0 then []
    else FailedIndices(statuses[..|statuses| - 1])
         + (if statuses[|statuses| - 1].errors.Some? then [|statuses| - 1] else [])
  }

  /** The lines at those indices. */
  function FailedLinesOf(statuses: seq<ConversionStatus>, lines: seq<string>): seq<string>
    requires |statuses| <= |lines|
    decreases |statuses|
  {
    if |statuses| == 0 then []
    else FailedLinesOf(statuses[..|statuses| - 1], lines)
         + (if statuses[|statuses| - 1].errors.Some? then [lines[|statuses| - 1]] else [])
  }

  function Messages(pairs: seq<ErrorPair>): seq<string> {
    seq(|pairs|, i requires 0 <= i < |pairs| => pairs[i].0)
  }

  /** The distinct elements of `s`, each kept at its first occurrence
      (JavaScript's `Array.from(new Set(...))`). */
  function Dedup(s: seq<string>): seq<string>
    decreases |s|
  {
    if |s| == 0 then []
    else
      var d := Dedup(s[..|s| - 1]);
      if s[|s| - 1] in d then d else d + [s[|s| - 1]]
  }

  /** The lines paired with message `m`, in order, one per pair. */
  function LinesFor(pairs: seq<ErrorPair>, m: string): seq<string>
    decreases |pairs|
  {
    if |pairs| == 0 then []
    else LinesFor(pairs[..|pairs| - 1], m)
         + (if pairs[|pairs| - 1].0 == m then [pairs[|pairs| - 1].1] else [])
  }

  function MessageSet(pairs: seq<ErrorPair>): set<string> {
    set i | 0 <= i < |pairs| :: pairs[i].0
  }

  /** The grouping of failed lines by normalised message. */
  function Grouped(pairs: seq<ErrorPair>): map<string, seq<string>> {
    map m | m in MessageSet(pairs) :: LinesFor(pairs, m)
  }

  /** Reference definition of what `extraFailedLines_` leaves in the result.
      `errors` is assigned inside the per-status loop, so it stays unset
      when there is no status. */
  function FailureSummary(numberOfLines: nat, statuses: seq<ConversionStatus>, lines: seq<string>): BatchResult
    requires |statuses| <= |lines|
  {
    var pairs := Failures(statuses, lines);
    BatchResult(
      false,
      numberOfLines,
      Some(FailedLinesOf(statuses, lines)),
      Some(Grouped(pairs)),
      if |statuses| == 0 then None else Some(Dedup(Messages(pairs))))
  }

  // ---------------------------------------------------------------------
  // Step lemmas used by the loop of ExtraFailedLines

  lemma FailuresSnoc(statuses: seq<ConversionStatus>, lines: seq<string>, i: nat)
    requires i < |statuses| <= |lines|
    ensures Failures(statuses[..i + 1], lines) == Failures(statuses[..i], lines) + PairsOf(statuses[i], lines[i])
    ensures FailedLinesOf(statuses[..i + 1], lines)
            == FailedLinesOf(statuses[..i], lines) + (if statuses[i].errors.Some? then [lines[i]] else [])
  {
    var prefix := statuses[..i + 1];
    assert |prefix| == i + 1;
    assert prefix[..i] == statuses[..i];
    assert prefix[i] == statuses[i];
  }

  lemma ErrorPairsSnoc(done: seq<ErrorPair>, es: seq<ConversionError>, j: nat, line: string)
    requires j < |es|
    ensures done + ErrorPairs(es[..j + 1], line)
            == (done + ErrorPairs(es[..j], line)) + [(Normalise(es[j].message), line)]
  {
    assert es[..j + 1][..j] == es[..j];
    assert ErrorPairs(es[..j + 1], line) == ErrorPairs(es[..j], line) + [(Normalise(es[j].message), line)];
  }

  lemma {:induction false} DedupMembership(s: seq<string>)
    ensures forall x :: x in Dedup(s) <==> x in s
    decreases |s|
  {
    if |s| > 0 {
      DedupMembership(s[..|s| - 1]);
      assert s == s[..|s| - 1] + [s[|s| - 1]];
    }
  }

  lemma {:induction false} LinesForAbsent(pairs: seq<ErrorPair>, m: string)
    requires m !in MessageSet(pairs)
    ensures LinesFor(pairs, m) == []
    decreases |pairs|
  {
    if |pairs| > 0 {
      var init := pairs[..|pairs| - 1];
      assert MessageSet(init) <= MessageSet(pairs) by {
        forall x | x in MessageSet(init)
          ensures x in MessageSet(pairs)
        {
          var i :| 0 <= i < |init| && init[i].0 == x;
          assert pairs[i].0 == x;
        }
      }
      LinesForAbsent(init, m);
      assert pairs[|pairs| - 1].0 in MessageSet(pairs);
    }
  }

  lemma GroupedSnoc(pairs: seq<ErrorPair>, p: ErrorPair)
    ensures Grouped(pairs + [p])
            == Grouped(pairs)[p.0 := (if p.0 in Grouped(pairs) then Grouped(pairs)[p.0] else []) + [p.1]]
  {
    var ps := pairs + [p];
    assert ps[..|ps| - 1] == pairs;
    assert MessageSet(ps) == MessageSet(pairs) + {p.0} by {
      forall x | x in MessageSet(ps)
        ensures x in MessageSet(pairs) + {p.0}
      {
        var i :| 0 <= i < |ps| && ps[i].0 == x;
        if i < |pairs| { assert pairs[i].0 == x; }
      }
      forall x | x in MessageSet(pairs)
        ensures x in MessageSet(ps)
      {
        var i :| 0 <= i < |pairs| && pairs[i].0 == x;
        assert ps[i].0 == x;
      }
      assert ps[|pairs|].0 == p.0;
    }
    var g := Grouped(pairs);
    var h := g[p.0 := (if p.0 in g then g[p.0] else []) + [p.1]];
    forall m | m in h
      ensures Grouped(ps)[m] == h[m]
    {
      assert LinesFor(ps, m) == LinesFor(pairs, m) + (if p.0 == m then [p.1] else []);
      if m == p.0 && p.0 !in MessageSet(pairs) {
        LinesForAbsent(pairs, p.0);
      }
    }
    assert Grouped(ps).Keys == h.Keys;
  }

  lemma MessagesSnoc(pairs: seq<ErrorPair>, p: ErrorPair)
    ensures Messages(pairs + [p]) == Messages(pairs) + [p.0]
    ensures Dedup(Messages(pairs + [p]))
            == if p.0 in Dedup(Messages(pairs)) then Dedup(Messages(pairs)) else Dedup(Messages(pairs)) + [p.0]
  {
    var s := Messages(pairs + [p]);
    assert s == Messages(pairs) + [p.0];
    assert s[..|s| - 1] == Messages(pairs);
  }

  // ---------------------------------------------------------------------
  // The reconciliation loop

  /** The inner `forEach` of `extraFailedLines_` over the errors `es` of one
      failed line: each error's normalised message joins the distinct
      messages (a JavaScript `Set`, kept here as `seen` plus the insertion
      order `distinct`) and the line is appended to that message's group. */
  method GroupErrors(
    ghost done: seq<ErrorPair>, es: seq<ConversionError>, line: string,
    grouped: map<string, seq<string>>, seen: set<string>, distinct: seq<string>)
    returns (grouped': map<string, seq<string>>, seen': set<string>, distinct': seq<string>)
    requires grouped == Grouped(done)
    requires distinct == Dedup(Messages(done))
    requires forall x :: x in seen <==> x in distinct
    ensures grouped' == Grouped(done + PairsOf(ConversionStatus(Some(es)), line))
    ensures distinct' == Dedup(Messages(done + PairsOf(ConversionStatus(Some(es)), line)))
    ensures forall x :: x in seen' <==> x in distinct'
  {
    grouped', seen', distinct' := grouped, seen, distinct;
    var j := 0;
    assert done + ErrorPairs(es[..0], line) == done;
    while j < |es|
      invariant 0 <= j <= |es|
      invariant grouped' == Grouped(done + ErrorPairs(es[..j], line))
      invariant distinct' == Dedup(Messages(done + ErrorPairs(es[..j], line)))
      invariant forall x :: x in seen' <==> x in distinct'
    {
      var message := Normalise(es[j].message);
      ErrorPairsSnoc(done, es, j, line);
      ghost var acc := done + ErrorPairs(es[..j], line);
      MessagesSnoc(acc, (message, line));
      GroupedSnoc(acc, (message, line));
      if message !in seen' {
        seen' := seen' + {message};
        distinct' := distinct' + [message];
      }
      var group := if message in grouped' then grouped'[message] else [];
      grouped' := grouped'[message := group + [line]];
      j := j + 1;
    }
    assert es[..|es|] == es;
  }

  /** `extraFailedLines_`: walks the statuses in index order; each status
      with an `errors` property adds its line to the failed lines and its
      errors to the groups; the distinct messages are copied into `errors`
      after every status. */
  method ExtraFailedLines(numberOfLines: nat, statuses: seq<ConversionStatus>, lines: seq<string>)
    returns (r: BatchResult)
    requires |statuses| <= |lines|
    ensures r == FailureSummary(numberOfLines, statuses, lines)
  {
    var failed: seq<string> := [];
    var grouped: map<string, seq<string>> := map[];
    var seen: set<string> := {};
    var distinct: seq<string> := [];
    var errors: Option<seq<string>> := None;
    var i := 0;
    while i < |statuses|
      invariant 0 <= i <= |statuses|
      invariant failed == FailedLinesOf(statuses[..i], lines)
      invariant grouped == Grouped(Failures(statuses[..i], lines))
      invariant distinct == Dedup(Messages(Failures(statuses[..i], lines)))
      invariant forall x :: x in seen <==> x in distinct
      invariant errors == if i == 0 then None else Some(distinct)
    {
      FailuresSnoc(statuses, lines, i);
      var status := statuses[i];
      if status.errors.Some? {
        failed := failed + [lines[i]];
        grouped, seen, distinct :=
          GroupErrors(Failures(statuses[..i], lines), status.errors.value, lines[i], grouped, seen, distinct);
      } else {
        assert Failures(statuses[..i + 1], lines) == Failures(statuses[..i], lines);
      }
      errors := Some(distinct);
      i := i + 1;
    }
    assert statuses[..i] == statuses;
    r := BatchResult(false, numberOfLines, Some(failed), Some(grouped), errors);
  }

  // ---------------------------------------------------------------------
  // Properties of the reconciliation

  /** The failed indices are exactly those whose status has an `errors`
      property, in strictly ascending order, so each index appears once. */
  lemma {:induction false} FailedIndicesAreErrored(statuses: seq<ConversionStatus>)
    ensures forall i :: i in FailedIndices(statuses) <==> 0 <= i < |statuses| && statuses[i].errors.Some?
    ensures forall a, b :: 0 <= a < b < |FailedIndices(statuses)| ==> FailedIndices(statuses)[a] < FailedIndices(statuses)[b]
    decreases |statuses|
  {
    if |statuses| > 0 {
      var n := |statuses| - 1;
      var init := statuses[..n];
      FailedIndicesAreErrored(init);
      assert forall i :: 0 <= i < n ==> init[i] == statuses[i];
    }
  }

  /** `failedLines` holds the lines at those indices, in the same order. */
  lemma {:induction false} FailedLinesAreErroredIndices(statuses: seq<ConversionStatus>, lines: seq<string>)
    requires |statuses| <= |lines|
    ensures FailedLinesOf(statuses, lines)
            == seq(|FailedIndices(statuses)|, k requires 0 <= k < |FailedIndices(statuses)| => lines[FailedIndices(statuses)[k]])
    decreases |statuses|
  {
    if |statuses| > 0 {
      var n := |statuses| - 1;
      var init := statuses[..n];
      FailedLinesAreErroredIndices(init, lines);
      var idx, idx0 := FailedIndices(statuses), FailedIndices(init);
      var tail := if statuses[n].errors.Some? then [n] else [];
      assert idx == idx0 + tail;
      assert FailedLinesOf(statuses, lines)
             == FailedLinesOf(init, lines) + (if statuses[n].errors.Some? then [lines[n]] else []);
      forall k | 0 <= k < |idx|
        ensures FailedLinesOf(statuses, lines)[k] == lines[idx[k]]
      {
        if k < |idx0| {
          assert idx[k] == idx0[k];
        }
      }
    }
  }

  /** The first position of `x` in `s`. */
  function FirstIndex(s: seq<string>, x: string): (r: nat)
    requires x in s
    ensures r < |s| && s[r] == x
    ensures forall j :: 0 <= j < r ==> s[j] != x
  {
    if s[0] == x then 0 else 1 + FirstIndex(s[1..], x)
  }

  lemma FirstIndexSnoc(s: seq<string>, x: string, y: string)
    requires y in s
    ensures FirstIndex(s + [x], y) == FirstIndex(s, y)
  {
    var r1 := FirstIndex(s, y);
    var r2 := FirstIndex(s + [x], y);
    assert (s + [x])[r1] == y;
    assert s[r2] == (s + [x])[r2];
  }

  /** `errors` lists every normalised message once, in the order of first
      occurrence. */
  lemma {:induction false} DedupIsFirstOccurrenceOrder(s: seq<string>)
    ensures forall x :: x in Dedup(s) <==> x in s
    ensures forall a, b :: 0 <= a < b < |Dedup(s)| ==> Dedup(s)[a] != Dedup(s)[b]
    ensures forall a, b :: 0 <= a < b < |Dedup(s)| ==> FirstIndex(s, Dedup(s)[a]) < FirstIndex(s, Dedup(s)[b])
    decreases |s|
  {
    DedupMembership(s);
    if |s| > 0 {
      var init := s[..|s| - 1];
      var x := s[|s| - 1];
      assert s == init + [x];
      DedupIsFirstOccurrenceOrder(init);
      var d := Dedup(init);
      forall a | 0 <= a < |d|
        ensures FirstIndex(s, d[a]) == FirstIndex(init, d[a])
      {
        FirstIndexSnoc(init, x, d[a]);
      }
      if x !in d {
        assert FirstIndex(s, x) == |init|;
      }
    }
  }

  lemma MessageSetIsMessages(pairs: seq<ErrorPair>)
    ensures forall m :: m in MessageSet(pairs) <==> m in Messages(pairs)
  {
    forall m | m in Messages(pairs)
      ensures m in MessageSet(pairs)
    {
      var i :| 0 <= i < |pairs| && Messages(pairs)[i] == m;
      assert pairs[i].0 == m;
    }
    forall m | m in MessageSet(pairs)
      ensures m in Messages(pairs)
    {
      var i :| 0 <= i < |pairs| && pairs[i].0 == m;
      assert Messages(pairs)[i] == m;
    }
  }

  /** Every line of a group is the second half of some pair. */
  lemma {:induction false} LinesForFromPairs(pairs: seq<ErrorPair>, m: string)
    ensures forall l :: l in LinesFor(pairs, m) ==> exists i :: 0 <= i < |pairs| && pairs[i] == (m, l)
    decreases |pairs|
  {
    if |pairs| > 0 {
      var init := pairs[..|pairs| - 1];
      LinesForFromPairs(init, m);
      forall l | l in LinesFor(pairs, m)
        ensures exists i :: 0 <= i < |pairs| && pairs[i] == (m, l)
      {
        if l in LinesFor(init, m) {
          var i :| 0 <= i < |init| && init[i] == (m, l);
          assert pairs[i] == (m, l);
        } else {
          assert pairs[|pairs| - 1] == (m, l);
        }
      }
    }
  }

  /** Every pair's line is a failed line. */
  lemma {:induction false} FailuresComeFromFailedLines(statuses: seq<ConversionStatus>, lines: seq<string>)
    requires |statuses| <= |lines|
    ensures forall k :: 0 <= k < |Failures(statuses, lines)| ==>
      Failures(statuses, lines)[k].1 in FailedLinesOf(statuses, lines)
    decreases |statuses|
  {
    if |statuses| > 0 {
      var n := |statuses| - 1;
      FailuresComeFromFailedLines(statuses[..n], lines);
      var before := Failures(statuses[..n], lines);
      var here := PairsOf(statuses[n], lines[n]);
      forall k | 0 <= k < |Failures(statuses, lines)|
        ensures Failures(statuses, lines)[k].1 in FailedLinesOf(statuses, lines)
      {
        if k < |before| {
          assert Failures(statuses, lines)[k] == before[k];
        } else {
          assert Failures(statuses, lines)[k] == here[k - |before|];
        }
      }
    }
  }

  /** After reconciliation the groups are keyed by exactly the distinct
      messages of `errors`, and every grouped line is a failed line. */
  lemma GroupsMatchErrorsAndFailedLines(numberOfLines: nat, statuses: seq<ConversionStatus>, lines: seq<string>)
    requires |statuses| <= |lines|
    ensures var r := FailureSummary(numberOfLines, statuses, lines);
      |statuses| > 0 ==> forall m :: m in r.groupedFailed.value <==> m in r.errors.value
    ensures var r := FailureSummary(numberOfLines, statuses, lines);
      forall m, l :: m in r.groupedFailed.value && l in r.groupedFailed.value[m] ==> l in r.failedLines.value
  {
    var pairs := Failures(statuses, lines);
    MessageSetIsMessages(pairs);
    DedupMembership(Messages(pairs));
    FailuresComeFromFailedLines(statuses, lines);
    forall m, l | m in MessageSet(pairs) && l in LinesFor(pairs, m)
      ensures l in FailedLinesOf(statuses, lines)
    {
      LinesForFromPairs(pairs, m);
      var i :| 0 <= i < |pairs| && pairs[i] == (m, l);
    }
  }

  /** Every pair is grouped: its line is in the group of its message. */
  lemma {:induction false} PairIsGrouped(pairs: seq<ErrorPair>, m: string, l: string)
    requires (m, l) in pairs
    ensures l in LinesFor(pairs, m)
    decreases |pairs|
  {
    var init := pairs[..|pairs| - 1];
    if pairs[|pairs| - 1] != (m, l) {
      assert pairs == init + [pairs[|pairs| - 1]];
      PairIsGrouped(init, m, l);
    }
  }

  /** Error `k` of a failed status `i` contributes the pair of its
      normalised message and line `i`. */
  lemma {:induction false} ErrorContributesPair(statuses: seq<ConversionStatus>, lines: seq<string>, i: nat, k: nat)
    requires |statuses| <= |lines|
    requires i < |statuses| && statuses[i].errors.Some? && k < |statuses[i].errors.value|
    ensures (Normalise(statuses[i].errors.value[k].message), lines[i]) in Failures(statuses, lines)
    decreases |statuses|
  {
    var n := |statuses| - 1;
    var here := PairsOf(statuses[n], lines[n]);
    if i == n {
      assert here[k] == (Normalise(statuses[i].errors.value[k].message), lines[i]);
    } else {
      assert statuses[..n][i] == statuses[i];
      ErrorContributesPair(statuses[..n], lines, i, k);
    }
  }

  /** Conversely, every error of a failed status puts that status's line in
      the group of the error's normalised message, and lists the message in
      `errors`. */
  lemma ErrorsGroupTheirLine(numberOfLines: nat, statuses: seq<ConversionStatus>, lines: seq<string>, i: nat, k: nat)
    requires |statuses| <= |lines|
    requires i < |statuses| && statuses[i].errors.Some? && k < |statuses[i].errors.value|
    ensures var r := FailureSummary(numberOfLines, statuses, lines);
      var m := Normalise(statuses[i].errors.value[k].message);
      && m in r.groupedFailed.value && lines[i] in r.groupedFailed.value[m]
      && m in r.errors.value
  {
    var pairs := Failures(statuses, lines);
    var m := Normalise(statuses[i].errors.value[k].message);
    ErrorContributesPair(statuses, lines, i, k);
    var j :| 0 <= j < |pairs| && pairs[j] == (m, lines[i]);
    assert m in MessageSet(pairs);
    PairIsGrouped(pairs, m, lines[i]);
    MessageSetIsMessages(pairs);
    DedupMembership(Messages(pairs));
  }

  /** Every pair comes from some error `k` of a failed status `i`: the
      converse of `ErrorContributesPair`. */
  lemma {:induction false} PairComesFromError(statuses: seq<ConversionStatus>, lines: seq<string>, j: nat)
    returns (i: nat, k: nat)
    requires |statuses| <= |lines|
    requires j < |Failures(statuses, lines)|
    ensures i < |statuses| && statuses[i].errors.Some? && k < |statuses[i].errors.value|
    ensures Failures(statuses, lines)[j] == (Normalise(statuses[i].errors.value[k].message), lines[i])
    decreases |statuses|
  {
    var n := |statuses| - 1;
    var before := Failures(statuses[..n], lines);
    var here := PairsOf(statuses[n], lines[n]);
    assert Failures(statuses, lines) == before + here;
    if j < |before| {
      i, k := PairComesFromError(statuses[..n], lines, j);
      assert statuses[..n][i] == statuses[i];
    } else {
      i, k := n, j - |before|;
      assert here[k] == Failures(statuses, lines)[j];
    }
  }

  /** Conversely to `ErrorsGroupTheirLine`, every grouped line `l` of a
      message `m` is the line of a failed status one of whose errors
      normalises to `m`. */
  lemma GroupedLinesComeFromErrors(numberOfLines: nat, statuses: seq<ConversionStatus>, lines: seq<string>, m: string, l: string)
    returns (i: nat, k: nat)
    requires |statuses| <= |lines|
    requires var r := FailureSummary(numberOfLines, statuses, lines);
      m in r.groupedFailed.value && l in r.groupedFailed.value[m]
    ensures i < |statuses| && statuses[i].errors.Some? && k < |statuses[i].errors.value|
    ensures m == Normalise(statuses[i].errors.value[k].message) && l == lines[i]
  {
    var pairs := Failures(statuses, lines);
    LinesForFromPairs(pairs, m);
    var j :| 0 <= j < |pairs| && pairs[j] == (m, l);
    i, k := PairComesFromError(statuses, lines, j);
  }

  /** Every message listed in `errors` is the normalised message of some
      error of a failed status. */
  lemma ReportedMessagesComeFromErrors(numberOfLines: nat, statuses: seq<ConversionStatus>, lines: seq<string>, m: string)
    returns (i: nat, k: nat)
    requires |statuses| <= |lines|
    requires var r := FailureSummary(numberOfLines, statuses, lines);
      r.errors.Some? && m in r.errors.value
    ensures i < |statuses| && statuses[i].errors.Some? && k < |statuses[i].errors.value|
    ensures m == Normalise(statuses[i].errors.value[k].message)
  {
    var pairs := Failures(statuses, lines);
    DedupMembership(Messages(pairs));
    var j :| 0 <= j < |Messages(pairs)| && Messages(pairs)[j] == m;
    i, k := PairComesFromError(statuses, lines, j);
  }

  /** The thrown error's text: `error.message || error.toString()`. */
  function ThrownText(message: string, description: string): string {
    if message != "" then message else description
  }

  /** The `BatchResult` the upload closure returns for a remote outcome. */
  function Reconcile(lines: seq<string>, outcome: RemoteOutcome): (r: BatchResult)
    requires outcome.Responded? && outcome.hasFailures ==> |outcome.statuses| <= |lines|
    ensures r.numberOfLines == |lines|
    ensures r.result <==> outcome.Responded? && !outcome.hasFailures
    ensures r.result ==> r.failedLines.None? && r.groupedFailed.None? && r.errors.None?
    ensures outcome.Threw? ==>
      && r.errors == Some([ThrownText(outcome.message, outcome.description)])
      && r.failedLines.None? && r.groupedFailed.None?
    ensures outcome.Responded? && outcome.hasFailures ==>
      && r.failedLines.Some? && r.groupedFailed.Some?
      && (r.errors.None? <==> |outcome.statuses| == 0)
  {
    match outcome
    case Threw(message, description) =>
      BatchResult(false, |lines|, None, None, Some([ThrownText(message, description)]))
    case Responded(hasFailures, statuses) =>
      if hasFailures then FailureSummary(|lines|, statuses, lines)
      else BatchResult(true, |lines|, None, None, None)
  }

  lemma NothingGroupedYet()
    ensures Grouped([]) == map[]
    ensures Dedup(Messages([])) == []
  {
    assert MessageSet([]) == {};
    assert Messages([]) == [];
  }

  /** One pair: one group holding its line, one message. */
  lemma GroupSinglePair(p: ErrorPair)
    ensures Grouped([p]) == map[p.0 := [p.1]]
    ensures Dedup(Messages([p])) == [p.0]
  {
    var none: seq<ErrorPair> := [];
    NothingGroupedYet();
    GroupedSnoc(none, p);
    MessagesSnoc(none, p);
    assert none + [p] == [p];
    var empty: seq<string> := [];
    assert empty + [p.1] == [p.1];
  }

  /** Two distinct messages: one group each, both listed in order. */
  lemma GroupTwoDistinctMessages(p1: ErrorPair, p2: ErrorPair)
    requires p1.0 != p2.0
    ensures Grouped([p1, p2]) == map[p1.0 := [p1.1], p2.0 := [p2.1]]
    ensures Dedup(Messages([p1, p2])) == [p1.0, p2.0]
  {
    GroupSinglePair(p1);
    GroupedSnoc([p1], p2);
    MessagesSnoc([p1], p2);
    assert [p1] + [p2] == [p1, p2];
    var empty: seq<string> := [];
    assert empty + [p2.1] == [p2.1];
  }

  /** Two equal pairs: one group holding the line twice ... */
  lemma GroupRepeatedPair(p: ErrorPair)
    ensures Grouped([p, p]) == map[p.0 := [p.1, p.1]]
  {
    var single: seq<ErrorPair> := [p];
    GroupSinglePair(p);
    var g := Grouped(single);
    assert p.0 in g && g[p.0] == [p.1];
    GroupedSnoc(single, p);
    assert single + [p] == [p, p];
    assert [p.1] + [p.1] == [p.1, p.1];
    assert Grouped([p, p]) == g[p.0 := [p.1, p.1]];
  }

  /** ... and one message. */
  lemma DedupRepeatedPair(p: ErrorPair)
    ensures Dedup(Messages([p, p])) == [p.0]
  {
    GroupSinglePair(p);
    MessagesSnoc([p], p);
    assert [p] + [p] == [p, p];
  }

  /** The worked example: two lines, the second rejected with two errors. */
  lemma ReconcileTwoErrorsExample()
    ensures Reconcile(
      ["l1", "l2"],
      Responded(true, [
        ConversionStatus(None),
        ConversionStatus(Some([ConversionError("400 error: INVALID_ID"), ConversionError("400 error: MISSING_FIELD")]))]))
      == BatchResult(false, 2, Some(["l2"]),
                     Some(map["INVALID_ID" := ["l2"], "MISSING_FIELD" := ["l2"]]),
                     Some(["INVALID_ID", "MISSING_FIELD"]))
  {
    NormaliseInvalidIdExample();
    NormaliseMissingFieldExample();
    var statuses := [
      ConversionStatus(None),
      ConversionStatus(Some([ConversionError("400 error: INVALID_ID"), ConversionError("400 error: MISSING_FIELD")]))];
    var lines := ["l1", "l2"];
    var p1, p2 := ("INVALID_ID", "l2"), ("MISSING_FIELD", "l2");
    assert statuses[..1] == [statuses[0]];
    assert statuses[..1][..0] == [];
    assert Failures(statuses[..1], lines) == [];
    assert FailedLinesOf(statuses[..1], lines) == [];
    assert PairsOf(statuses[1], "l2") == [p1, p2];
    assert Failures(statuses, lines) == [p1, p2];
    assert FailedLinesOf(statuses, lines) == ["l2"];
    GroupTwoDistinctMessages(p1, p2);
  }

  /** Two errors of one line that normalise alike put that line twice in
      the group, though it is once in `failedLines`. */
  lemma ReconcileRepeatsLineWithinGroup()
    ensures Reconcile(["l"], Responded(true, [ConversionStatus(Some([ConversionError("BAD"), ConversionError("BAD")]))]))
      == BatchResult(false, 1, Some(["l"]), Some(map["BAD" := ["l", "l"]]), Some(["BAD"]))
  {
    var statuses := [ConversionStatus(Some([ConversionError("BAD"), ConversionError("BAD")]))];
    var lines := ["l"];
    var p := ("BAD", "l");
    RepeatedErrorPairs();
    GroupRepeatedPair(p);
    DedupRepeatedPair(p);
    assert FailedLinesOf(statuses, lines) == ["l"] by {
      assert statuses[..0] == [];
    }
  }

  /** The pairs of a line rejected twice with "BAD". */
  lemma RepeatedErrorPairs()
    ensures Failures([ConversionStatus(Some([ConversionError("BAD"), ConversionError("BAD")]))], ["l"])
            == [("BAD", "l"), ("BAD", "l")]
  {
    var statuses := [ConversionStatus(Some([ConversionError("BAD"), ConversionError("BAD")]))];
    assert !ContainsMarker("BAD");
    assert statuses[..0] == [];
    var es := statuses[0].errors.value;
    assert ErrorPairs(es, "l") == [("BAD", "l"), ("BAD", "l")];
  }

  /** A status whose `errors` list is empty still fails its line, yet puts
      it in no group and adds no message: a failed batch can carry an empty
      `errors`. */
  lemma ReconcileEmptyErrorsList()
    ensures Reconcile(["l"], Responded(true, [ConversionStatus(Some([]))]))
      == BatchResult(false, 1, Some(["l"]), Some(map[]), Some([]))
  {
    var statuses := [ConversionStatus(Some([]))];
    assert statuses[..0] == [];
    assert PairsOf(statuses[0], "l") == [];
    assert Failures(statuses, ["l"]) == [];
    assert FailedLinesOf(statuses, ["l"]) == ["l"];
    NothingGroupedYet();
    assert FailureSummary(1, statuses, ["l"]).groupedFailed == Some(map[]);
    assert FailureSummary(1, statuses, ["l"]).errors == Some([]);
    assert FailureSummary(1, statuses, ["l"]).failedLines == Some(["l"]);
  }

  /** A response flagged as failed but without statuses leaves `errors`
      unset. */
  lemma ReconcileNoStatuses()
    ensures Reconcile(["l"], Responded(true, []))
      == BatchResult(false, 1, Some([]), Some(map[]), None)
  {
    NothingGroupedYet();
  }
}
