/** The records of the core (app/models/Task.js, app/models/Insight.js) and
    the Insight collection the controllers query and update. */
module Models {
  import opened JsValues

  /** An instant as the collection stores it (a `Date`), written as its
      canonical ISO string: two values name the same instant exactly when
      their keys agree. */
  type DateKey = string

  /** A logged task: the owner, the start and end instants in milliseconds
      since the epoch, the hours the user claims to have used (a string, as
      the schema stores it) and the day it belongs to. */
  datatype Task = Task(email: string, startTime: int, endTime: int, timeUsed: string, dateAdded: DateKey)

  /** A daily insight: claimed and elapsed hours, the utilisation percentage
      and the comment chosen from it. */
  datatype Insight = Insight(
    email: string,
    dateAdded: DateKey,
    totalTimeLogged: Number,
    timeUsed: Number,
    percentageUsed: Number,
    comment: string)

  /** An insight as a JSON document, without `_id`. */
  function InsightToJs(i: Insight): (v: JsValue)
    ensures v.Obj? && v.props.Keys == {"email", "dateAdded", "totalTimeLogged", "timeUsed", "percentageUsed", "comment"}
    ensures Get(v.props, "email") == Str(i.email) && Get(v.props, "dateAdded") == Str(i.dateAdded)
  {
    Obj(map[
      "email" := Str(i.email),
      "dateAdded" := Str(i.dateAdded),
      "totalTimeLogged" := Num(i.totalTimeLogged),
      "timeUsed" := Num(i.timeUsed),
      "percentageUsed" := Num(i.percentageUsed),
      "comment" := Str(i.comment)])
  }

  /** The documents of a list of records, in order. */
  function InsightsToJs(records: seq<Insight>): seq<JsValue> {
    seq(|records|, i requires 0 <= i < |records| => InsightToJs(records[i]))
  }

  /** The records whose email is `email`, in collection order. */
  function WithEmail(records: seq<Insight>, email: string): (r: seq<Insight>)
    ensures |r| <= |records|
    ensures forall x :: x in r ==> x.email == email
    decreases |records|
  {
    if records == [] then []
    else
      var rest := WithEmail(records[..|records| - 1], email);
      var last := records[|records| - 1];
      if last.email == email then rest + [last] else rest
  }

  /** The filter keeps every record with the email, as often as it occurs,
      and no other. */
  lemma {:induction false} WithEmailCounts(records: seq<Insight>, email: string)
    ensures forall x ::
      multiset(WithEmail(records, email))[x] == if x.email == email then multiset(records)[x] else 0
    decreases |records|
  {
    if records != [] {
      var init := records[..|records| - 1];
      var last := records[|records| - 1];
      assert records == init + [last];
      WithEmailCounts(init, email);
    }
  }

  /** The query `{ email, dateAdded }` of `deleteOne`, once the request's
      `dateAdded` has been converted to a stored instant. */
  predicate MatchesQuery(x: Insight, email: string, day: DateKey) {
    x.email == email && x.dateAdded == day
  }

  /** Index of the first record matching the query, or `|records|`. */
  function FirstMatch(records: seq<Insight>, email: string, day: DateKey): (i: nat)
    ensures i <= |records|
    ensures i < |records| ==> MatchesQuery(records[i], email, day)
    ensures forall j :: 0 <= j < i ==> !MatchesQuery(records[j], email, day)
  {
    if records == [] then 0
    else if MatchesQuery(records[0], email, day) then 0
    else 1 + FirstMatch(records[1..], email, day)
  }

  /** The collection after `deleteOne`: the first matching record removed,
      or the collection unchanged when none matches. */
  function RemoveFirst(records: seq<Insight>, email: string, day: DateKey): (r: seq<Insight>)
    ensures |r| == |records| || |r| == |records| - 1
  {
    var i := FirstMatch(records, email, day);
    if i == |records| then records else records[..i] + records[i + 1..]
  }

  /** The collection: a sequence of records in insertion order. */
  class InsightCollection {
    var records: seq<Insight>

    constructor(initial: seq<Insight>)
      ensures records == initial
    {
      records := initial;
    }

    /** `Insight.find({ email })`. */
    function Find(email: string): (r: seq<Insight>)
      reads this
      ensures forall x :: x in r <==> x in records && x.email == email
    {
      var r := WithEmail(records, email);
      WithEmailCounts(records, email);
      assert forall x :: x in r <==> multiset(r)[x] > 0;
      assert forall x :: x in records <==> multiset(records)[x] > 0;
      r
    }

    /** `new Insight(...).save()`: the record is appended. */
    method Save(x: Insight)
      modifies this
      ensures records == old(records) + [x]
    {
      records := records + [x];
    }

    /** `Insight.deleteOne({ email, dateAdded })` with the converted day:
      removes the first matching record and reports how many it removed. */
    method DeleteOne(email: string, day: DateKey) returns (deletedCount: nat)
      modifies this
      ensures records == RemoveFirst(old(records), email, day)
      ensures deletedCount == |old(records)| - |records|
      ensures deletedCount == 0 <==> forall x :: x in old(records) ==> !MatchesQuery(x, email, day)
    {
      var i := FirstMatch(records, email, day);
      if i == |records| {
        deletedCount := 0;
      } else {
        records := records[..i] + records[i + 1..];
        deletedCount := 1;
      }
    }
  }

  /** deleteOne removes at most one record, the one it removes matches the
      query, and every other record stays, in the same order. */
  lemma RemoveFirstRemovesOneMatch(records: seq<Insight>, email: string, day: DateKey)
    ensures var r := RemoveFirst(records, email, day);
      (r == records <==> forall x :: x in records ==> !MatchesQuery(x, email, day)) &&
      (r != records ==>
         exists i :: 0 <= i < |records| && MatchesQuery(records[i], email, day) &&
           r == records[..i] + records[i + 1..])
  {
    var i := FirstMatch(records, email, day);
    var r := RemoveFirst(records, email, day);
    if i < |records| {
      assert |r| == |records| - 1;
      assert records[i] in records;
    }
  }

  /** Removing a record keeps the multiset of the others: exactly one copy of
      a matching record disappears. */
  lemma RemoveFirstMultiset(records: seq<Insight>, email: string, day: DateKey)
    ensures var i := FirstMatch(records, email, day);
      i < |records| ==> multiset(RemoveFirst(records, email, day)) + multiset{records[i]} == multiset(records)
  {
    var i := FirstMatch(records, email, day);
    if i < |records| {
      assert records == records[..i] + [records[i]] + records[i + 1..];
    }
  }

  /** Records of other users are never touched by a delete. */
  lemma RemoveFirstKeepsOthers(records: seq<Insight>, email: string, day: DateKey, other: string)
    requires other != email
    ensures WithEmail(RemoveFirst(records, email, day), other) == WithEmail(records, other)
  {
    var i := FirstMatch(records, email, day);
    if i < |records| {
      var pre, x, post := records[..i], records[i], records[i + 1..];
      assert records == pre + [x] + post;
      WithEmailSkips(pre, x, post, other);
    }
  }

  /** A record of another user does not show in the filtered view. */
  lemma WithEmailSkips(pre: seq<Insight>, x: Insight, post: seq<Insight>, email: string)
    requires x.email != email
    ensures WithEmail(pre + [x] + post, email) == WithEmail(pre + post, email)
  {
    assert pre + [x] + post == pre + ([x] + post);
    WithEmailAppend(pre, [x] + post, email);
    WithEmailAppend([x], post, email);
    WithEmailAppend(pre, post, email);
    assert WithEmail([x], email) == [] by {
      assert [x][..0] == [];
    }
  }

  /** Filtering distributes over concatenation. */
  lemma {:induction false} WithEmailAppend(a: seq<Insight>, b: seq<Insight>, email: string)
    ensures WithEmail(a + b, email) == WithEmail(a, email) + WithEmail(b, email)
    decreases |b|
  {
    if b == [] {
      assert a + b == a;
    } else {
      var c := a + b;
      assert c[..|c| - 1] == a + b[..|b| - 1];
      assert c[|c| - 1] == b[|b| - 1];
      WithEmailAppend(a, b[..|b| - 1], email);
    }
  }

  /** FirstMatch finds the match that no earlier record precedes. */
  lemma {:induction false} FirstMatchAt(records: seq<Insight>, email: string, day: DateKey, k: nat)
    requires k < |records| && MatchesQuery(records[k], email, day)
    requires forall j :: 0 <= j < k ==> !MatchesQuery(records[j], email, day)
    ensures FirstMatch(records, email, day) == k
    decreases k
  {
    if k > 0 {
      FirstMatchAt(records[1..], email, day, k - 1);
    }
  }

  /** Every record the filter keeps comes from the collection. */
  lemma WithEmailSubset(records: seq<Insight>, email: string)
    ensures forall x :: x in WithEmail(records, email) ==> x in records
  {
    WithEmailCounts(records, email);
    assert forall x :: x in WithEmail(records, email) ==> multiset(WithEmail(records, email))[x] > 0;
  }

  /** Deleting and then listing the caller's insights gives what listing and
      then deleting from the list gives: a delete removes exactly one entry
      from the caller's view, the first of the requested day, or none. */
  lemma DeleteCommutesWithFind(records: seq<Insight>, email: string, day: DateKey)
    ensures WithEmail(RemoveFirst(records, email, day), email) ==
      RemoveFirst(WithEmail(records, email), email, day)
  {
    if FirstMatch(records, email, day) == |records| {
      DeleteOfNothing(records, email, day);
    } else {
      DeleteOfMatch(records, email, day);
    }
  }

  lemma DeleteOfNothing(records: seq<Insight>, email: string, day: DateKey)
    requires FirstMatch(records, email, day) == |records|
    ensures WithEmail(RemoveFirst(records, email, day), email) ==
      RemoveFirst(WithEmail(records, email), email, day)
  {
    var view := WithEmail(records, email);
    WithEmailSubset(records, email);
    assert forall x :: x in view ==> !MatchesQuery(x, email, day);
    assert FirstMatch(view, email, day) == |view|;
  }

  /** The caller's view around one of the caller's records. */
  lemma ViewAround(records: seq<Insight>, email: string, i: nat)
    requires i < |records| && records[i].email == email
    ensures WithEmail(records, email) ==
      WithEmail(records[..i], email) + [records[i]] + WithEmail(records[i + 1..], email)
    ensures WithEmail(records[..i] + records[i + 1..], email) ==
      WithEmail(records[..i], email) + WithEmail(records[i + 1..], email)
  {
    var pre, x, post := records[..i], records[i], records[i + 1..];
    assert records == pre + ([x] + post);
    WithEmailAppend(pre, [x] + post, email);
    WithEmailAppend([x], post, email);
    WithEmailAppend(pre, post, email);
    assert WithEmail([x], email) == [x] by {
      assert [x][..0] == [];
    }
  }

  /** Removing the first match from `front + [x] + back`, when `x` matches
      and nothing in `front` does, leaves `front + back`. */
  lemma RemoveFirstAfter(front: seq<Insight>, x: Insight, back: seq<Insight>, email: string, day: DateKey)
    requires MatchesQuery(x, email, day)
    requires forall y :: y in front ==> !MatchesQuery(y, email, day)
    ensures RemoveFirst(front + [x] + back, email, day) == front + back
  {
    var s := front + [x] + back;
    assert forall j :: 0 <= j < |front| ==> s[j] == front[j] && front[j] in front;
    FirstMatchAt(s, email, day, |front|);
    assert s[..|front|] == front && s[|front| + 1..] == back;
  }

  lemma DeleteOfMatch(records: seq<Insight>, email: string, day: DateKey)
    requires FirstMatch(records, email, day) < |records|
    ensures WithEmail(RemoveFirst(records, email, day), email) ==
      RemoveFirst(WithEmail(records, email), email, day)
  {
    var i := FirstMatch(records, email, day);
    var front, back := WithEmail(records[..i], email), WithEmail(records[i + 1..], email);
    ViewAround(records, email, i);
    WithEmailSubset(records[..i], email);
    assert forall y :: y in records[..i] ==> !MatchesQuery(y, email, day);
    RemoveFirstAfter(front, records[i], back, email, day);
    assert RemoveFirst(records, email, day) == records[..i] + records[i + 1..];
  }
}
