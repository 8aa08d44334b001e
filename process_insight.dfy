/** The daily summary of app/controllers/insight/processInsight.js: the
    expired tasks of a user are folded into claimed hours and elapsed hours,
    the ratio becomes a percentage, the percentage picks a comment, and one
    Insight record is saved. */
module InsightProcessing {
  import opened JsValues
  import opened Models
  import Constants

  // ---- the quantities --------------------------------------------------------

  /** `Number(task.timeUsed)`: the hours a task claims. */
  function Claim(t: Task): Number {
    ToNumber(Str(t.timeUsed))
  }

  /** `(new Date(endTime) - new Date(startTime)) / 3600000`: the hours a task spans. */
  function Span(t: Task): real {
    (t.endTime - t.startTime) as real / 3600000.0
  }

  /** The claims of the tasks, in order. */
  function Claims(tasks: seq<Task>): seq<Number> {
    seq(|tasks|, i requires 0 <= i < |tasks| => Claim(tasks[i]))
  }

  /** The running `timeUsed` after the given claims: starting from 0, each
      claim is added with JavaScript's `+`. */
  function Total(claims: seq<Number>): Number
    decreases |claims|
  {
    if claims == [] then Finite(0.0)
    else Add(Total(claims[..|claims| - 1]), claims[|claims| - 1])
  }

  /** The running `totalTimeLogged` after the given tasks. */
  function SpanHours(tasks: seq<Task>): real
    decreases |tasks|
  {
    if tasks == [] then 0.0
    else SpanHours(tasks[..|tasks| - 1]) + Span(tasks[|tasks| - 1])
  }

  /** `Number(Number(timeUsed) / Number(totalTimeLogged)) * 100`. */
  function Percent(claimed: Number, total: real): Number {
    Mul(Div(claimed, Finite(total)), Finite(100.0))
  }

  // ---- the comment -------------------------------------------------------------

  datatype Comment = Great | Okay | NeedToImprove | Default

  /** The `switch (true)`: the first case whose test holds. JavaScript's
      comparisons are all false on NaN, so only NaN reaches the default. */
  function Classify(p: Number): (c: Comment)
    ensures c == Default <==> p.NaN?
    ensures c == Great <==> p.PosInf? || (p.Finite? && p.r >= 80.0)
    ensures c == Okay <==> p.Finite? && 30.0 < p.r < 80.0
    ensures c == NeedToImprove <==> p.NegInf? || (p.Finite? && p.r <= 30.0)
  {
    if AtMost(Finite(80.0), p) then Great
    else if Less(Finite(30.0), p) && Less(p, Finite(80.0)) then Okay
    else if AtMost(p, Finite(30.0)) then NeedToImprove
    else Default
  }

  function CommentText(c: Comment): (s: string)
    ensures c == Default <==> s == Constants.DEFAULT_COMMENT
  {
    match c
    case Great => Constants.GREAT_COMMENT
    case Okay => Constants.OKAY_COMMENT
    case NeedToImprove => Constants.NEED_TO_IMPROVE_COMMENT
    case Default => Constants.DEFAULT_COMMENT
  }

  /** The record saved for a non-empty list of tasks: email and day come from
      the first task, the figures from all of them. */
  function DerivedInsight(tasks: seq<Task>): (r: Insight)
    requires |tasks| >= 1
    ensures r.email == tasks[0].email && r.dateAdded == tasks[0].dateAdded
    ensures r.totalTimeLogged.Finite?
    ensures r.percentageUsed.NaN? <==> r.comment == Constants.DEFAULT_COMMENT
  {
    var claimed := Total(Claims(tasks));
    var total := SpanHours(tasks);
    var p := Percent(claimed, total);
    Insight(tasks[0].email, tasks[0].dateAdded, Finite(total), claimed, p, CommentText(Classify(p)))
  }

  // ---- the operation ---------------------------------------------------------

  /** `processInsight(taskDetails)`. `taskDetails` is `null` (None) or the
      list of tasks; `saveOk` is whether the database accepts the save.
      A `null` list throws at `forEach`, an empty one at `taskDetails[0]`, a
      failed save in `save()`: each error is caught and logged, and nothing
      is stored. Otherwise exactly one record is appended. */
  method ProcessInsight(taskDetails: Option<seq<Task>>, db: InsightCollection, saveOk: bool)
    modifies db
    ensures taskDetails.None? || taskDetails.value == [] || !saveOk ==> db.records == old(db.records)
    ensures taskDetails.Some? && taskDetails.value != [] && saveOk ==>
      db.records == old(db.records) + [DerivedInsight(taskDetails.value)]
  {
    if taskDetails.None? {
      // `null.forEach` throws
      return;
    }
    var tasks := taskDetails.value;
    var timeUsed, totalTimeLogged := AccumulateHours(tasks);
    var percentageUsed := Mul(Div(timeUsed, totalTimeLogged), Finite(100.0));
    var comment := CommentText(Classify(percentageUsed));
    if |tasks| == 0 {
      // `taskDetails[0]` is undefined and reading its email throws
      return;
    }
    var newInsight := Insight(tasks[0].email, tasks[0].dateAdded, totalTimeLogged, timeUsed, percentageUsed, comment);
    if saveOk {
      db.Save(newInsight);
    }
  }

  /** The `forEach` of processInsight: both running totals start at 0 and
      every task adds its claim and its elapsed hours. */
  method AccumulateHours(tasks: seq<Task>) returns (timeUsed: Number, totalTimeLogged: Number)
    ensures timeUsed == Total(Claims(tasks))
    ensures totalTimeLogged == Finite(SpanHours(tasks))
  {
    totalTimeLogged := Finite(0.0);
    timeUsed := Finite(0.0);
    ghost var claims := Claims(tasks);
    var i := 0;
    assert tasks[..0] == [];
    while i < |tasks|
      invariant 0 <= i <= |tasks|
      invariant timeUsed == Total(claims[..i])
      invariant totalTimeLogged == Finite(SpanHours(tasks[..i]))
    {
      var task := tasks[i];
      ClaimStep(claims, i);
      timeUsed := Add(timeUsed, ToNumber(Str(task.timeUsed)));
      SpanStep(tasks, i);
      var maximumCurrentDuration := Div(Finite((task.endTime - task.startTime) as real), Finite(3600000.0));
      totalTimeLogged := Add(totalTimeLogged, maximumCurrentDuration);
      i := i + 1;
    }
    assert claims[..|tasks|] == claims;
    assert tasks[..|tasks|] == tasks;
  }

  /** One more claim is added to the running `timeUsed`. */
  lemma ClaimStep(claims: seq<Number>, i: nat)
    requires i < |claims|
    ensures Total(claims[..i + 1]) == Add(Total(claims[..i]), claims[i])
  {
    assert claims[..i + 1][..i] == claims[..i];
  }

  /** One more task adds its elapsed hours to the running `totalTimeLogged`. */
  lemma SpanStep(tasks: seq<Task>, i: nat)
    requires i < |tasks|
    ensures Finite(SpanHours(tasks[..i + 1])) ==
      Add(Finite(SpanHours(tasks[..i])), Div(Finite((tasks[i].endTime - tasks[i].startTime) as real), Finite(3600000.0)))
  {
    assert tasks[..i + 1][..i] == tasks[..i];
  }

  // ---- what the figures mean -----------------------------------------------------

  /** The claims as a plain sum, added from the front. */
  function Sum(claims: seq<Number>): real
    requires forall x :: x in claims ==> x.Finite?
    decreases |claims|
  {
    if claims == [] then 0.0 else claims[0].r + Sum(claims[1..])
  }

  lemma {:induction false} SumAppend(claims: seq<Number>, x: Number)
    requires forall y :: y in claims + [x] ==> y.Finite?
    ensures Sum(claims + [x]) == Sum(claims) + x.r
    decreases |claims|
  {
    if claims != [] {
      assert (claims + [x])[1..] == claims[1..] + [x];
      SumAppend(claims[1..], x);
    }
  }

  /** When every claim is a finite number, `timeUsed` is their sum. */
  lemma {:induction false} TotalIsSum(claims: seq<Number>)
    requires forall x :: x in claims ==> x.Finite?
    ensures Total(claims) == Finite(Sum(claims))
    decreases |claims|
  {
    if claims != [] {
      var init, last := claims[..|claims| - 1], claims[|claims| - 1];
      assert claims == init + [last];
      assert last in claims;
      TotalIsSum(init);
      SumAppend(init, last);
    }
  }

  /** A claim that is not a number (NaN) makes `timeUsed` NaN. */
  lemma {:induction false} TotalNaN(claims: seq<Number>, i: nat)
    requires i < |claims| && claims[i].NaN?
    ensures Total(claims).NaN?
    decreases |claims|
  {
    if i < |claims| - 1 {
      TotalNaN(claims[..|claims| - 1], i);
    }
  }

  /** Without NaN and -Infinity claims the total is neither. */
  lemma {:induction false} TotalAboveNegInf(claims: seq<Number>)
    requires forall x :: x in claims ==> !x.NegInf? && !x.NaN?
    ensures !Total(claims).NegInf? && !Total(claims).NaN?
    decreases |claims|
  {
    if claims != [] {
      var init := claims[..|claims| - 1];
      assert forall x :: x in init ==> x in claims;
      TotalAboveNegInf(init);
      assert claims[|claims| - 1] in claims;
    }
  }

  /** A claim of "Infinity" makes `timeUsed` +Infinity, unless another claim
      is NaN or -Infinity. */
  lemma {:induction false} TotalPosInf(claims: seq<Number>, i: nat)
    requires i < |claims| && claims[i].PosInf?
    requires forall x :: x in claims ==> !x.NegInf? && !x.NaN?
    ensures Total(claims).PosInf?
    decreases |claims|
  {
    var init := claims[..|claims| - 1];
    assert forall x :: x in init ==> x in claims;
    if i < |claims| - 1 {
      TotalPosInf(init, i);
    } else {
      TotalAboveNegInf(init);
    }
    assert claims[|claims| - 1] in claims;
  }

  /** The elapsed hours of two lists of tasks add up. */
  lemma {:induction false} SpanHoursAppend(a: seq<Task>, b: seq<Task>)
    ensures SpanHours(a + b) == SpanHours(a) + SpanHours(b)
    decreases |b|
  {
    if b == [] {
      assert a + b == a;
    } else {
      var c := a + b;
      assert c[..|c| - 1] == a + b[..|b| - 1];
      SpanHoursAppend(a, b[..|b| - 1]);
    }
  }

  /** The elapsed hours depend only on the start and end times, never on the
      claims. */
  lemma {:induction false} SpanHoursIgnoresClaims(a: seq<Task>, b: seq<Task>)
    requires |a| == |b|
    requires forall i :: 0 <= i < |a| ==> a[i].startTime == b[i].startTime && a[i].endTime == b[i].endTime
    ensures SpanHours(a) == SpanHours(b)
    decreases |a|
  {
    if a != [] {
      SpanHoursIgnoresClaims(a[..|a| - 1], b[..|b| - 1]);
    }
  }

  /** Tasks that end no earlier than they start give non-negative hours. */
  lemma {:induction false} SpanHoursNonNegative(tasks: seq<Task>)
    requires forall t :: t in tasks ==> t.startTime <= t.endTime
    ensures SpanHours(tasks) >= 0.0
    decreases |tasks|
  {
    if tasks != [] {
      assert tasks[|tasks| - 1] in tasks;
      SpanHoursNonNegative(tasks[..|tasks| - 1]);
    }
  }

  /** With some elapsed time the percentage is the ratio times 100. */
  lemma PercentOfFiniteHours(claimed: real, total: real)
    requires total != 0.0
    ensures Percent(Finite(claimed), total) == Finite(claimed / total * 100.0)
  {
  }

  /** No claims over no time: 0 / 0 is NaN and the default comment is chosen. */
  lemma ZeroOverZeroIsDefault()
    ensures Classify(Percent(Finite(0.0), 0.0)) == Default
  {
  }

  /** Claimed hours over no elapsed time: x / 0 is +Infinity for x > 0, and
      +Infinity counts as at least 80. */
  lemma PositiveOverZeroIsGreat(claimed: real)
    requires claimed > 0.0
    ensures Classify(Percent(Finite(claimed), 0.0)) == Great
  {
  }

  /** Negative claimed hours over no elapsed time give -Infinity, which is at
      most 30. */
  lemma NegativeOverZeroNeedsImprovement(claimed: real)
    requires claimed < 0.0
    ensures Classify(Percent(Finite(claimed), 0.0)) == NeedToImprove
  {
  }

  /** 80 and 30 are inclusive boundaries of the outer classes. */
  lemma Boundaries()
    ensures Classify(Finite(80.0)) == Great
    ensures Classify(Finite(30.0)) == NeedToImprove
    ensures Classify(Finite(50.0)) == Okay
  {
  }

  /** A one-digit claim reads as its value. */
  lemma DigitClaim(t: Task, n: nat)
    requires n < 10 && t.timeUsed == ['0' + n as char]
    ensures Claim(t) == Finite(n as real)
  {
    NumberOfDecimalString(n);
  }

  /** A day with two tasks, 09:00-13:00 claiming 3 hours and 14:00-16:00
      claiming 2. */
  function SampleDay(email: string, day: DateKey): seq<Task> {
    [Task(email, 9 * 3600000, 13 * 3600000, "3", day),
     Task(email, 14 * 3600000, 16 * 3600000, "2", day)]
  }

  /** Two claims are added from 0, the first one first. */
  lemma TotalOfTwo(a: Number, b: Number)
    ensures Total([a, b]) == Add(Add(Finite(0.0), a), b)
  {
    var claims := [a, b];
    assert claims[..|claims| - 1] == [a];
    assert [a][..0] == [];
    assert Total([a]) == Add(Finite(0.0), a);
  }

  lemma SampleDayClaims(email: string, day: DateKey)
    ensures Total(Claims(SampleDay(email, day))) == Finite(5.0)
  {
    SampleDayClaimValues(email, day);
    TotalOfTwo(Finite(3.0), Finite(2.0));
    assert Add(Add(Finite(0.0), Finite(3.0)), Finite(2.0)) == Finite(5.0);
  }

  lemma SampleDayClaimValues(email: string, day: DateKey)
    ensures Claims(SampleDay(email, day)) == [Finite(3.0), Finite(2.0)]
  {
    var tasks := SampleDay(email, day);
    DigitClaim(tasks[0], 3);
    DigitClaim(tasks[1], 2);
  }

  lemma SampleDaySpan(email: string, day: DateKey)
    ensures SpanHours(SampleDay(email, day)) == 6.0
  {
    var tasks := SampleDay(email, day);
    assert tasks[..1][..0] == [];
    assert SpanHours(tasks[..1]) == 4.0;
  }

  /** The sample day: 6 elapsed hours, 5 claimed, about 83.33 percent, a
      great day. */
  lemma SampleDayIsGreat(email: string, day: DateKey)
    ensures var r := DerivedInsight(SampleDay(email, day));
      r.totalTimeLogged == Finite(6.0) && r.timeUsed == Finite(5.0) &&
      r.percentageUsed == Finite(500.0 / 6.0) && r.comment == Constants.GREAT_COMMENT
  {
    SampleDayClaims(email, day);
    SampleDaySpan(email, day);
    PercentOfFiniteHours(5.0, 6.0);
  }
}
