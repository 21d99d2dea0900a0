/** The usability survey: the range rules of a feedback record, the System
    Usability Scale score of one record, and the averages over all records
    (per-question UEQ and SUS averages, the recommendation average and the
    task success rates). Storing and loading records is left out. */
module Survey {
  import opened Wrappers
  import opened Seqs

  /** One feedback record. The numeric answers are grouped in declaration
      order: `ueq` holds annoying_vs_enjoyable … friendly_vs_unfriendly (8),
      `sus` holds use_frequently … need_to_learn_a_lot (10); `completed` and
      `observations` hold the flappy bird, albion online, organized theft,
      elden ring and free search task fields (5 each). The free-text
      comments are not used by any computation and are left out. */
  datatype UserFeedback = UserFeedback(
    ueq: seq<Option<int>>,
    sus: seq<Option<int>>,
    recommend: Option<int>,
    completed: seq<Option<bool>>,
    observations: seq<Option<string>>)

  const UeqItems := 8
  const SusItems := 10
  const Tasks := 5

  /** An optional answer that is absent or within `lo..hi`. */
  predicate InRange(o: Option<int>, lo: int, hi: int) {
    o.None? || lo <= o.value <= hi
  }

  /** The field constraints of the record: UEQ items in 1..7 except
      friendly_vs_unfriendly in -1..7, SUS items in 1..5, the recommendation
      in 0..10, each also allowed to be absent. */
  predicate Valid(f: UserFeedback) {
    |f.ueq| == UeqItems && |f.sus| == SusItems && |f.completed| == Tasks && |f.observations| == Tasks
    && (forall i :: 0 <= i < UeqItems - 1 ==> InRange(f.ueq[i], 1, 7))
    && InRange(f.ueq[UeqItems - 1], -1, 7)
    && (forall i :: 0 <= i < SusItems ==> InRange(f.sus[i], 1, 5))
    && InRange(f.recommend, 0, 10)
  }

  /** Every answer defaults to None, and a record of defaults passes the
      field constraints. */
  lemma DefaultRecordValid(completed: seq<Option<bool>>, observations: seq<Option<string>>)
    requires |completed| == Tasks && |observations| == Tasks
    ensures Valid(UserFeedback(seq(UeqItems, _ => None), seq(SusItems, _ => None), None, completed, observations))
  {
  }

  /** Every answer of the group is present (arithmetic on an absent answer
      raises, so each computation needs its group complete). */
  predicate Complete(answers: seq<Option<int>>) {
    forall i :: 0 <= i < |answers| ==> answers[i].Some?
  }

  function Values(answers: seq<Option<int>>): (r: seq<int>)
    requires Complete(answers)
    ensures |r| == |answers| && forall i :: 0 <= i < |r| ==> Some(r[i]) == answers[i]
  {
    seq(|answers|, i requires 0 <= i < |answers| => answers[i].value)
  }

  // ---------------------------------------------------------------------------
  // System Usability Scale

  /** What answer `a` at position `i` adds: odd-numbered items (even
      positions) give `a - 1`, even-numbered items give `5 - a`. */
  function Contribution(i: nat, a: int): int {
    if i % 2 == 0 then a - 1 else 5 - a
  }

  /** The raw SUS sum over the answers. */
  function SusRaw(answers: seq<int>): int {
    if answers == [] then 0
    else
      var n := |answers| - 1;
      SusRaw(answers[..n]) + Contribution(n, answers[n])
  }

  /** The loop of `compute_sus_score`, then the scaling by 2.5. */
  method ComputeSusScore(f: UserFeedback) returns (score: real)
    requires |f.sus| == SusItems && Complete(f.sus)
    ensures score == 2.5 * SusRaw(Values(f.sus)) as real
  {
    var scores := Values(f.sus);
    var sum := 0;
    for i := 0 to |scores|
      invariant sum == SusRaw(scores[..i])
    {
      assert scores[..i + 1][..i] == scores[..i];
      if i % 2 == 0 {
        sum := sum + (scores[i] - 1);
      } else {
        sum := sum + (5 - scores[i]);
      }
    }
    assert scores[..|scores|] == scores;
    score := sum as real * 2.5;
  }

  /** The alternating sum `a0 - a1 + a2 - ...`. */
  function AltSum(answers: seq<int>): int {
    if answers == [] then 0
    else
      var n := |answers| - 1;
      AltSum(answers[..n]) + (if n % 2 == 0 then answers[n] else -answers[n])
  }

  /** The usual closed form: the odd-numbered items count positively, the
      even-numbered negatively, and each item shifts the sum by its constant
      (-1 for the (n+1)/2 odd-numbered ones, +5 for the n/2 even-numbered). */
  lemma {:induction false} SusRawClosedForm(answers: seq<int>)
    ensures SusRaw(answers) == AltSum(answers) - (|answers| + 1) / 2 + 5 * (|answers| / 2)
  {
    if answers != [] {
      SusRawClosedForm(answers[..|answers| - 1]);
    }
  }

  /** For the ten-item questionnaire the raw sum is the alternating sum plus 20. */
  lemma SusRawTenItems(answers: seq<int>)
    requires |answers| == SusItems
    ensures SusRaw(answers) == AltSum(answers) + 20
  {
    SusRawClosedForm(answers);
  }

  /** With every answer in 1..5 each item adds 0..4. */
  lemma {:induction false} SusRawBounds(answers: seq<int>)
    requires forall i :: 0 <= i < |answers| ==> 1 <= answers[i] <= 5
    ensures 0 <= SusRaw(answers) <= 4 * |answers|
  {
    if answers != [] {
      var n := |answers| - 1;
      SusRawBounds(answers[..n]);
    }
  }

  /** A valid, complete record scores 0..40 raw and 0..100 scaled. */
  lemma SusScoreRange(f: UserFeedback)
    requires Valid(f) && Complete(f.sus)
    ensures 0 <= SusRaw(Values(f.sus)) <= 40
    ensures 0.0 <= 2.5 * SusRaw(Values(f.sus)) as real <= 100.0
  {
    var v := Values(f.sus);
    assert forall i :: 0 <= i < |v| ==> 1 <= v[i] <= 5 by {
      forall i | 0 <= i < |v| ensures 1 <= v[i] <= 5 {
        assert InRange(f.sus[i], 1, 5);
      }
    }
    SusRawBounds(v);
  }

  // ---------------------------------------------------------------------------
  // Column averages

  /** Column `c` of a table of rows. */
  function Column(rows: seq<seq<int>>, c: nat): (r: seq<int>)
    requires forall k :: 0 <= k < |rows| ==> c < |rows[k]|
    ensures |r| == |rows| && forall k :: 0 <= k < |rows| ==> r[k] == rows[k][c]
  {
    seq(|rows|, k requires 0 <= k < |rows| => rows[k][c])
  }

  predicate Rectangular(rows: seq<seq<int>>, width: nat) {
    forall k :: 0 <= k < |rows| ==> |rows[k]| == width
  }

  /** The sum of a column's suffix, one row at a time from the front. */
  lemma ColumnStep(rows: seq<seq<int>>, i: nat, c: nat)
    requires i < |rows| && forall k :: 0 <= k < |rows| ==> c < |rows[k]|
    ensures Sum(Column(rows[i..], c)) == rows[i][c] + Sum(Column(rows[i + 1..], c))
  {
    assert Column(rows[i..], c)[1..] == Column(rows[i + 1..], c);
  }

  /** The reduce loop: row 0 (a copy of it, here) accumulates every later
      row, added from the last one down to row 1. */
  method ReduceColumns(rows: seq<seq<int>>, width: nat) returns (totals: seq<int>)
    requires |rows| >= 1 && Rectangular(rows, width)
    ensures |totals| == width
    ensures forall c :: 0 <= c < width ==> totals[c] == Sum(Column(rows, c))
  {
    var acc := new int[width];
    forall c | 0 <= c < width {
      acc[c] := rows[0][c];
    }
    var i := |rows| - 1;
    while i > 0
      invariant 0 <= i <= |rows| - 1
      invariant forall c :: 0 <= c < width ==> acc[c] == rows[0][c] + Sum(Column(rows[i + 1..], c))
    {
      for c := 0 to width
        invariant forall d :: 0 <= d < c ==> acc[d] == rows[0][d] + Sum(Column(rows[i..], d))
        invariant forall d :: c <= d < width ==> acc[d] == rows[0][d] + Sum(Column(rows[i + 1..], d))
      {
        ColumnStep(rows, i, c);
        acc[c] := acc[c] + rows[i][c];
      }
      i := i - 1;
    }
    forall c | 0 <= c < width
      ensures acc[c] == Sum(Column(rows, c))
    {
      ColumnStep(rows, 0, c);
      assert rows[0..] == rows;
    }
    totals := acc[..];
  }

  /** The average of column `c`. */
  function ColumnAverage(rows: seq<seq<int>>, c: nat): real
    requires |rows| >= 1 && forall k :: 0 <= k < |rows| ==> c < |rows[k]|
  {
    Sum(Column(rows, c)) as real / |rows| as real
  }

  lemma {:induction false} SumBounds(s: seq<int>, lo: int, hi: int)
    requires forall k :: 0 <= k < |s| ==> lo <= s[k] <= hi
    ensures lo * |s| <= Sum(s) <= hi * |s|
  {
    if s != [] {
      SumBounds(s[1..], lo, hi);
    }
  }

  /** A mean of values in `lo..hi` lies in `lo..hi`. */
  lemma MeanBounds(s: seq<int>, lo: int, hi: int)
    requires |s| >= 1 && forall k :: 0 <= k < |s| ==> lo <= s[k] <= hi
    ensures lo as real <= Sum(s) as real / |s| as real <= hi as real
  {
    SumBounds(s, lo, hi);
    QuotientBounds(Sum(s) as real, |s| as real, lo as real, hi as real);
  }

  lemma QuotientBounds(total: real, n: real, lo: real, hi: real)
    requires n > 0.0 && lo * n <= total <= hi * n
    ensures lo <= total / n <= hi
  {
    var m := total / n;
    assert m * n == total;
  }

  /** The UEQ rows of the records. */
  function EqRows(items: seq<UserFeedback>): (rows: seq<seq<int>>)
    requires forall k :: 0 <= k < |items| ==> |items[k].ueq| == UeqItems && Complete(items[k].ueq)
    ensures |rows| == |items| && Rectangular(rows, UeqItems)
    ensures forall k, c :: 0 <= k < |items| && 0 <= c < UeqItems ==> Some(rows[k][c]) == items[k].ueq[c]
  {
    seq(|items|, k requires 0 <= k < |items| => Values(items[k].ueq))
  }

  /** The SUS rows of the records. */
  function SusRows(items: seq<UserFeedback>): (rows: seq<seq<int>>)
    requires forall k :: 0 <= k < |items| ==> |items[k].sus| == SusItems && Complete(items[k].sus)
    ensures |rows| == |items| && Rectangular(rows, SusItems)
    ensures forall k, c :: 0 <= k < |items| && 0 <= c < SusItems ==> Some(rows[k][c]) == items[k].sus[c]
  {
    seq(|items|, k requires 0 <= k < |items| => Values(items[k].sus))
  }

  /** The per-question UEQ averages. */
  method ComputeAvgEqScores(items: seq<UserFeedback>) returns (avg: seq<real>)
    requires |items| >= 1
    requires forall k :: 0 <= k < |items| ==> |items[k].ueq| == UeqItems && Complete(items[k].ueq)
    ensures |avg| == UeqItems
    ensures forall c :: 0 <= c < UeqItems ==> avg[c] == ColumnAverage(EqRows(items), c)
  {
    var totals := ReduceColumns(EqRows(items), UeqItems);
    avg := seq(UeqItems, c requires 0 <= c < UeqItems => totals[c] as real / |items| as real);
  }

  /** The per-question SUS averages. */
  method ComputeAvgSusScores(items: seq<UserFeedback>) returns (avg: seq<real>)
    requires |items| >= 1
    requires forall k :: 0 <= k < |items| ==> |items[k].sus| == SusItems && Complete(items[k].sus)
    ensures |avg| == SusItems
    ensures forall c :: 0 <= c < SusItems ==> avg[c] == ColumnAverage(SusRows(items), c)
  {
    var totals := ReduceColumns(SusRows(items), SusItems);
    avg := seq(SusItems, c requires 0 <= c < SusItems => totals[c] as real / |items| as real);
  }

  /** Over valid records each UEQ average stays in its item's range. */
  lemma EqAveragesInRange(items: seq<UserFeedback>, c: nat)
    requires |items| >= 1 && c < UeqItems
    requires forall k :: 0 <= k < |items| ==> |items[k].ueq| == UeqItems && Complete(items[k].ueq) && Valid(items[k])
    ensures c < UeqItems - 1 ==> 1.0 <= ColumnAverage(EqRows(items), c) <= 7.0
    ensures c == UeqItems - 1 ==> -1.0 <= ColumnAverage(EqRows(items), c) <= 7.0
  {
    var rows := EqRows(items);
    var col := Column(rows, c);
    var lo := if c < UeqItems - 1 then 1 else -1;
    forall k | 0 <= k < |col|
      ensures lo <= col[k] <= 7
    {
      assert Valid(items[k]);
      assert Some(col[k]) == items[k].ueq[c];
      if c < UeqItems - 1 {
        assert InRange(items[k].ueq[c], 1, 7);
      }
    }
    MeanBounds(col, lo, 7);
  }

  /** Over valid records each SUS average lies in 1..5. */
  lemma SusAveragesInRange(items: seq<UserFeedback>, c: nat)
    requires |items| >= 1 && c < SusItems
    requires forall k :: 0 <= k < |items| ==> |items[k].sus| == SusItems && Complete(items[k].sus) && Valid(items[k])
    ensures 1.0 <= ColumnAverage(SusRows(items), c) <= 5.0
  {
    var col := Column(SusRows(items), c);
    forall k | 0 <= k < |col|
      ensures 1 <= col[k] <= 5
    {
      assert Valid(items[k]);
      assert Some(col[k]) == items[k].sus[c];
      assert InRange(items[k].sus[c], 1, 5);
    }
    MeanBounds(col, 1, 5);
  }

  // ---------------------------------------------------------------------------
  // Recommendation and task averages

  function Recommends(items: seq<UserFeedback>): (r: seq<int>)
    requires forall k :: 0 <= k < |items| ==> items[k].recommend.Some?
    ensures |r| == |items| && forall k :: 0 <= k < |items| ==> Some(r[k]) == items[k].recommend
  {
    seq(|items|, k requires 0 <= k < |items| => items[k].recommend.value)
  }

  /** The average of how likely the users are to recommend the site. */
  method ComputeAvgLikelyToSuggest(items: seq<UserFeedback>) returns (avg: real)
    requires |items| >= 1
    requires forall k :: 0 <= k < |items| ==> items[k].recommend.Some?
    ensures avg == Sum(Recommends(items)) as real / |items| as real
  {
    var r := Recommends(items);
    var likely := 0;
    for i := 0 to |items|
      invariant likely == Sum(r[..i])
    {
      assert r[..i + 1] == r[..i] + [r[i]];
      SumAppend(r[..i], [r[i]]);
      likely := likely + items[i].recommend.value;
    }
    assert r[..|items|] == r;
    avg := likely as real / |items| as real;
  }

  /** Over valid records the recommendation average lies in 0..10. */
  lemma LikelyInRange(items: seq<UserFeedback>)
    requires |items| >= 1
    requires forall k :: 0 <= k < |items| ==> Valid(items[k]) && items[k].recommend.Some?
    ensures 0.0 <= Sum(Recommends(items)) as real / |items| as real <= 10.0
  {
    var r := Recommends(items);
    forall k | 0 <= k < |r|
      ensures 0 <= r[k] <= 10
    {
      assert Valid(items[k]);
    }
    MeanBounds(r, 0, 10);
  }

  /** Whether the record counts as a success for task `j`: the completed
      flag is true, except for the elden ring task (`j == 3`), where the
      observations text is tested instead. */
  predicate Succeeded(f: UserFeedback, j: nat)
    requires j < Tasks && |f.completed| == Tasks && |f.observations| == Tasks
  {
    if j == 3 then f.observations[3].Some? && f.observations[3].value != []
    else f.completed[j] == Some(true)
  }

  predicate Shaped(items: seq<UserFeedback>) {
    forall k :: 0 <= k < |items| ==> |items[k].completed| == Tasks && |items[k].observations| == Tasks
  }

  /** The number of records that count as a success for task `j`. */
  function Successes(items: seq<UserFeedback>, j: nat): (n: nat)
    requires j < Tasks && Shaped(items)
    ensures n <= |items|
  {
    if items == [] then 0
    else
      var m := |items| - 1;
      Successes(items[..m], j) + (if Succeeded(items[m], j) then 1 else 0)
  }

  /** The success rate of each task. */
  method ComputeAvgSuccesses(items: seq<UserFeedback>) returns (rates: seq<real>)
    requires |items| >= 1 && Shaped(items)
    ensures |rates| == Tasks
    ensures forall j :: 0 <= j < Tasks ==> rates[j] == Successes(items, j) as real / |items| as real
    ensures forall j :: 0 <= j < Tasks ==> 0.0 <= rates[j] <= 1.0
  {
    var successes: seq<nat> := [0, 0, 0, 0, 0];
    for i := 0 to |items|
      invariant |successes| == Tasks
      invariant forall j :: 0 <= j < Tasks ==> successes[j] == Successes(items[..i], j)
    {
      assert items[..i + 1][..i] == items[..i];
      successes := NoteSuccesses(successes, items[i]);
    }
    assert items[..|items|] == items;
    rates := seq(Tasks, j requires 0 <= j < Tasks => successes[j] as real / |items| as real);
    forall j | 0 <= j < Tasks
      ensures 0.0 <= rates[j] <= 1.0
    {
      SuccessRateRange(items, j);
    }
  }

  /** One record's contribution to the five counters. */
  method NoteSuccesses(counts: seq<nat>, f: UserFeedback) returns (updated: seq<nat>)
    requires |counts| == Tasks && |f.completed| == Tasks && |f.observations| == Tasks
    ensures |updated| == Tasks
    ensures forall j :: 0 <= j < Tasks ==> updated[j] == counts[j] + (if Succeeded(f, j) then 1 else 0)
  {
    updated := counts;
    if f.completed[0] == Some(true) {
      updated := updated[0 := updated[0] + 1];
    }
    if f.completed[1] == Some(true) {
      updated := updated[1 := updated[1] + 1];
    }
    if f.completed[2] == Some(true) {
      updated := updated[2 := updated[2] + 1];
    }
    if f.observations[3].Some? && f.observations[3].value != [] {
      updated := updated[3 := updated[3] + 1];
    }
    if f.completed[4] == Some(true) {
      updated := updated[4 := updated[4] + 1];
    }
  }

  /** Each success rate is a fraction. */
  lemma SuccessRateRange(items: seq<UserFeedback>, j: nat)
    requires |items| >= 1 && Shaped(items) && j < Tasks
    ensures 0.0 <= Successes(items, j) as real / |items| as real <= 1.0
  {
    QuotientBounds(Successes(items, j) as real, |items| as real, 0.0, 1.0);
  }

  // ---------------------------------------------------------------------------
  // Task completion rates as evidently intended

  /** The number of records whose completed flag for task `j` is true. */
  function Completions(items: seq<UserFeedback>, j: nat): (n: nat)
    requires j < Tasks && Shaped(items)
    ensures n <= |items|
  {
    if items == [] then 0
    else
      var m := |items| - 1;
      Completions(items[..m], j) + (if items[m].completed[j] == Some(true) then 1 else 0)
  }

  /** For every task but elden ring the rate as written is the completion
      rate. */
  lemma {:induction false} SuccessesAreCompletions(items: seq<UserFeedback>, j: nat)
    requires j < Tasks && j != 3 && Shaped(items)
    ensures Successes(items, j) == Completions(items, j)
  {
    if items != [] {
      SuccessesAreCompletions(items[..|items| - 1], j);
    }
  }

  /** The elden ring rate follows the observations, not the completed flag:
      a record that completed the task without observations is not counted,
      one that failed it with observations is. */
  lemma EldenRingCountsObservations()
    ensures var done := UserFeedback([], [], None, [None, None, None, Some(true), None],
                                     [None, None, None, None, None]);
            Successes([done], 3) == 0 && Completions([done], 3) == 1
    ensures var failed := UserFeedback([], [], None, [None, None, None, Some(false), None],
                                       [None, None, None, Some("slow"), None]);
            Successes([failed], 3) == 1 && Completions([failed], 3) == 0
  {
    var done := UserFeedback([], [], None, [None, None, None, Some(true), None],
                             [None, None, None, None, None]);
    assert [done][..0] == [];
    var failed := UserFeedback([], [], None, [None, None, None, Some(false), None],
                               [None, None, None, Some("slow"), None]);
    assert [failed][..0] == [];
  }

  /** The success rates with every task, elden ring included, counted by its
      completed flag. */
  method ComputeCompletionRates(items: seq<UserFeedback>) returns (rates: seq<real>)
    requires |items| >= 1 && Shaped(items)
    ensures |rates| == Tasks
    ensures forall j :: 0 <= j < Tasks ==> rates[j] == Completions(items, j) as real / |items| as real
  {
    var completions: seq<nat> := [0, 0, 0, 0, 0];
    for i := 0 to |items|
      invariant |completions| == Tasks
      invariant forall j :: 0 <= j < Tasks ==> completions[j] == Completions(items[..i], j)
    {
      assert items[..i + 1][..i] == items[..i];
      completions := NoteCompletions(completions, items[i]);
    }
    assert items[..|items|] == items;
    rates := seq(Tasks, j requires 0 <= j < Tasks => completions[j] as real / |items| as real);
  }

  method NoteCompletions(counts: seq<nat>, f: UserFeedback) returns (updated: seq<nat>)
    requires |counts| == Tasks && |f.completed| == Tasks
    ensures |updated| == Tasks
    ensures forall j :: 0 <= j < Tasks ==> updated[j] == counts[j] + (if f.completed[j] == Some(true) then 1 else 0)
  {
    updated := counts;
    for j := 0 to Tasks
      invariant |updated| == Tasks
      invariant forall t :: 0 <= t < j ==> updated[t] == counts[t] + (if f.completed[t] == Some(true) then 1 else 0)
      invariant forall t :: j <= t < Tasks ==> updated[t] == counts[t]
    {
      if f.completed[j] == Some(true) {
        updated := updated[j := updated[j] + 1];
      }
    }
  }

  /** Each completion rate is a fraction. */
  lemma CompletionRateRange(items: seq<UserFeedback>, j: nat)
    requires |items| >= 1 && Shaped(items) && j < Tasks
    ensures 0.0 <= Completions(items, j) as real / |items| as real <= 1.0
  {
    QuotientBounds(Completions(items, j) as real, |items| as real, 0.0, 1.0);
  }
}
