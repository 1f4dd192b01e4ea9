/**
 apps/web/lib/public-status-core.ts: the incident query. Window functions over the events
 in time order, a group-by, a lateral join and a limit, against maximal runs of down events.
 */
module Incidents {
  import opened Options

  type Time = int

  datatype Event = Event(at: Time, down: bool, error: Option<string>)
  datatype Incident = Incident(start: Time, end: Option<Time>, error: Option<string>)

  /** The events of a site by `checked_at`; no two at the same time. */
  ghost predicate InOrder(ev: seq<Event>) {
    forall i, j :: 0 <= i < j < |ev| ==> ev[i].at < ev[j].at
  }

  // ----- the query

  /** `lag(status) over (order by checked_at)` */
  function PrevDown(ev: seq<Event>, i: nat): Option<bool>
    requires i < |ev|
  {
    if i == 0 then None else Some(ev[i - 1].down)
  }

  predicate Opens(ev: seq<Event>, i: nat)
    requires i < |ev|
  {
    ev[i].down && (PrevDown(ev, i).None? || !PrevDown(ev, i).value)
  }

  /** `sum(case when ... then 1 else 0 end) over (order by checked_at)` */
  function Group(ev: seq<Event>, i: nat): nat
    requires i < |ev|
  {
    (if i == 0 then 0 else Group(ev, i - 1)) + if Opens(ev, i) then 1 else 0
  }

  function Groups(ev: seq<Event>): nat {
    if ev == [] then 0 else Group(ev, |ev| - 1)
  }

  /** The rows of `where status = 'down' group by grp`, among the first `n`. */
  function Rows(ev: seq<Event>, g: nat, n: nat): (rows: seq<Event>)
    requires n <= |ev|
  {
    if n == 0 then []
    else Rows(ev, g, n - 1) + if ev[n - 1].down && Group(ev, n - 1) == g then [ev[n - 1]] else []
  }

  function GroupRows(ev: seq<Event>, g: nat): seq<Event> {
    Rows(ev, g, |ev|)
  }

  function MinAt(rows: seq<Event>): (t: Time)
    requires rows != []
    ensures forall i :: 0 <= i < |rows| ==> t <= rows[i].at
    ensures exists i :: 0 <= i < |rows| && rows[i].at == t
  {
    if |rows| == 1 then rows[0].at
    else
      var rest := MinAt(rows[..|rows| - 1]);
      assert rows == rows[..|rows| - 1] + [rows[|rows| - 1]];
      if rows[|rows| - 1].at < rest then rows[|rows| - 1].at else rest
  }

  function MaxAt(rows: seq<Event>): (t: Time)
    requires rows != []
    ensures forall i :: 0 <= i < |rows| ==> t >= rows[i].at
    ensures exists i :: 0 <= i < |rows| && rows[i].at == t
  {
    if |rows| == 1 then rows[0].at
    else
      var rest := MaxAt(rows[..|rows| - 1]);
      assert rows == rows[..|rows| - 1] + [rows[|rows| - 1]];
      if rows[|rows| - 1].at > rest then rows[|rows| - 1].at else rest
  }

  /** `(array_agg(error) filter (where error is not null))[1]` */
  function FirstError(rows: seq<Event>): (error: Option<string>)
    ensures error.Some? ==> exists i :: 0 <= i < |rows| && rows[i].error == error
    ensures error.None? ==> forall i :: 0 <= i < |rows| ==> rows[i].error.None?
  {
    if rows == [] then None else if rows[0].error.Some? then rows[0].error else FirstError(rows[1..])
  }

  /** The lateral join: the first up event after `t`. */
  function NextUp(ev: seq<Event>, t: Time): Option<Time> {
    if ev == [] then None
    else if !ev[0].down && ev[0].at > t then Some(ev[0].at)
    else NextUp(ev[1..], t)
  }

  function IncidentOf(ev: seq<Event>, g: nat): Incident
    requires GroupRows(ev, g) != []
  {
    var rows := GroupRows(ev, g);
    Incident(MinAt(rows), NextUp(ev, MaxAt(rows)), FirstError(rows))
  }

  /** `order by start desc limit 50`; groups are numbered in time order. */
  function Query(ev: seq<Event>): (incidents: seq<Incident>)
    requires InOrder(ev)
  {
    var n := if Groups(ev) < 50 then Groups(ev) else 50;
    seq(n, k requires 0 <= k < n =>
      GroupIsInhabited(ev, Groups(ev) - k);
      IncidentOf(ev, Groups(ev) - k))
  }

  // ----- maximal runs

  predicate AllDown(ev: seq<Event>, a: nat, b: nat)
    requires a <= b < |ev|
  {
    forall i :: a <= i <= b ==> ev[i].down
  }

  predicate MaximalRun(ev: seq<Event>, a: nat, b: nat) {
    && a <= b < |ev| && AllDown(ev, a, b)
    && (a == 0 || !ev[a - 1].down)
    && (b + 1 == |ev| || !ev[b + 1].down)
  }

  /** What an incident says about its run: it ends with the very next event, or is still open. */
  ghost predicate Describes(ev: seq<Event>, a: nat, b: nat, incident: Incident) {
    && a <= b < |ev|
    && incident.start == ev[a].at
    && incident.end == (if b + 1 < |ev| then Some(ev[b + 1].at) else None)
    && (incident.error.Some? ==> exists i :: a <= i <= b && ev[i].error == incident.error)
    && (incident.error.None? ==> forall i :: a <= i <= b ==> ev[i].error.None?)
  }

  /** The run around a down event. */
  function RunStart(ev: seq<Event>, i: nat): (a: nat)
    requires i < |ev| && ev[i].down
    ensures a <= i && AllDown(ev, a, i) && (a == 0 || !ev[a - 1].down)
  {
    if i == 0 || !ev[i - 1].down then i else RunStart(ev, i - 1)
  }

  function RunEnd(ev: seq<Event>, i: nat): (b: nat)
    requires i < |ev| && ev[i].down
    ensures i <= b < |ev| && AllDown(ev, i, b) && (b + 1 == |ev| || !ev[b + 1].down)
    decreases |ev| - i
  {
    if i + 1 == |ev| || !ev[i + 1].down then i else RunEnd(ev, i + 1)
  }

  /** Every down event is in one maximal run, and in only one. */
  lemma EachDownInOneRun(ev: seq<Event>, i: nat)
    requires i < |ev| && ev[i].down
    ensures MaximalRun(ev, RunStart(ev, i), RunEnd(ev, i))
    ensures forall a: nat, b: nat :: MaximalRun(ev, a, b) && a <= i <= b ==> a == RunStart(ev, i) && b == RunEnd(ev, i)
  {
    var s, e := RunStart(ev, i), RunEnd(ev, i);
    forall a: nat, b: nat | MaximalRun(ev, a, b) && a <= i <= b
      ensures a == s && b == e
    {
      assert AllDown(ev, s, e);
    }
  }

  // ----- groups are maximal runs

  lemma {:induction false} GroupGrows(ev: seq<Event>, i: nat, j: nat)
    requires i <= j < |ev|
    ensures Group(ev, i) <= Group(ev, j)
    decreases j
  {
    if i < j {
      GroupGrows(ev, i, j - 1);
    }
  }

  lemma {:induction false} GroupWithinRun(ev: seq<Event>, i: nat, j: nat)
    requires i <= j < |ev| && AllDown(ev, i, j)
    ensures Group(ev, i) == Group(ev, j)
    decreases j
  {
    if i < j {
      GroupWithinRun(ev, i, j - 1);
      assert ev[j - 1].down;
    }
  }

  /** Between two down events of one group there is no up event. */
  lemma {:induction false} GroupIsUnbroken(ev: seq<Event>, i: nat, j: nat)
    requires i <= j < |ev| && ev[i].down && ev[j].down && Group(ev, i) == Group(ev, j)
    ensures AllDown(ev, i, j)
    decreases j
  {
    if i < j {
      GroupGrows(ev, i, j - 1);
      assert Group(ev, j) == Group(ev, j - 1) + if Opens(ev, j) then 1 else 0;
      GroupIsUnbroken(ev, i, j - 1);
    }
  }

  lemma GroupIsRun(ev: seq<Event>, a: nat, b: nat, i: nat)
    requires MaximalRun(ev, a, b) && i < |ev|
    ensures ev[i].down && Group(ev, i) == Group(ev, a) <==> a <= i <= b
  {
    if a <= i <= b {
      GroupWithinRun(ev, a, i);
    } else if ev[i].down && Group(ev, i) == Group(ev, a) {
      if i < a {
        GroupIsUnbroken(ev, i, a);
      } else {
        GroupIsUnbroken(ev, a, i);
      }
    }
  }

  /** Some event opens each group. */
  lemma {:induction false} GroupOpener(ev: seq<Event>, g: nat, n: nat) returns (i: nat)
    requires 0 < n <= |ev| && 0 < g <= Group(ev, n - 1)
    ensures i < n && ev[i].down && Group(ev, i) == g
    decreases n
  {
    if Opens(ev, n - 1) && Group(ev, n - 1) == g {
      i := n - 1;
    } else {
      assert n > 1;
      i := GroupOpener(ev, g, n - 1);
    }
  }

  lemma {:induction false} RowsHave(ev: seq<Event>, g: nat, n: nat, i: nat)
    requires i < n <= |ev| && ev[i].down && Group(ev, i) == g
    ensures ev[i] in Rows(ev, g, n)
    decreases n
  {
    if i < n - 1 {
      RowsHave(ev, g, n - 1, i);
    }
  }

  lemma {:induction false} RowsAreFrom(ev: seq<Event>, g: nat, n: nat, k: nat) returns (i: nat)
    requires n <= |ev| && k < |Rows(ev, g, n)|
    ensures i < n && ev[i] == Rows(ev, g, n)[k] && ev[i].down && Group(ev, i) == g
    decreases n
  {
    if k < |Rows(ev, g, n - 1)| {
      i := RowsAreFrom(ev, g, n - 1, k);
    } else {
      i := n - 1;
    }
  }

  /** The run of a group. */
  lemma GroupRun(ev: seq<Event>, g: nat) returns (a: nat, b: nat)
    requires ev != [] && 0 < g <= Groups(ev)
    ensures MaximalRun(ev, a, b) && Group(ev, a) == g
  {
    var i := GroupOpener(ev, g, |ev|);
    EachDownInOneRun(ev, i);
    a, b := RunStart(ev, i), RunEnd(ev, i);
    GroupWithinRun(ev, a, i);
  }

  lemma GroupIsInhabited(ev: seq<Event>, g: nat)
    requires 0 < g <= Groups(ev)
    ensures GroupRows(ev, g) != []
  {
    var i := GroupOpener(ev, g, |ev|);
    RowsHave(ev, g, |ev|, i);
  }

  lemma {:induction false} NextUpIs(ev: seq<Event>, t: Time, k: nat)
    requires InOrder(ev) && k <= |ev|
    requires forall i :: 0 <= i < k ==> ev[i].down || ev[i].at <= t
    requires k < |ev| ==> !ev[k].down && ev[k].at > t
    ensures NextUp(ev, t) == if k < |ev| then Some(ev[k].at) else None
    decreases k
  {
    if k > 0 {
      var rest := ev[1..];
      assert forall i :: 0 <= i < |rest| ==> rest[i] == ev[i + 1];
      NextUpIs(rest, t, k - 1);
    }
  }

  /** The incident of a group describes the maximal run the group is. */
  lemma IncidentDescribesRun(ev: seq<Event>, a: nat, b: nat)
    requires InOrder(ev) && MaximalRun(ev, a, b)
    ensures GroupRows(ev, Group(ev, a)) != [] && Describes(ev, a, b, IncidentOf(ev, Group(ev, a)))
  {
    var g := Group(ev, a);
    var rows := GroupRows(ev, g);
    RunTimes(ev, a, b);
    NextUpIs(ev, ev[b].at, b + 1);
    RunError(ev, a, b);
    hide Rows, Group, MinAt, MaxAt, FirstError, NextUp;
  }

  lemma RunTimes(ev: seq<Event>, a: nat, b: nat)
    requires InOrder(ev) && MaximalRun(ev, a, b)
    ensures var rows := GroupRows(ev, Group(ev, a));
            rows != [] && MinAt(rows) == ev[a].at && MaxAt(rows) == ev[b].at
  {
    var rows := GroupRows(ev, Group(ev, a));
    var first := RunHas(ev, a, b, a);
    var last := RunHas(ev, a, b, b);
    hide Rows, GroupRows, Group, MinAt, MaxAt, InOrder, AllDown;
    forall k | 0 <= k < |rows|
      ensures rows[first].at <= rows[k].at <= rows[last].at
    {
      RowInRun(ev, a, b, k);
    }
    EndsOf(rows, first, last);
  }

  lemma RowInRun(ev: seq<Event>, a: nat, b: nat, k: nat)
    requires InOrder(ev) && MaximalRun(ev, a, b) && k < |GroupRows(ev, Group(ev, a))|
    ensures ev[a].at <= GroupRows(ev, Group(ev, a))[k].at <= ev[b].at
  {
    var i := RunRow(ev, a, b, k);
    hide GroupRows, Group;
  }

  lemma EndsOf(rows: seq<Event>, first: nat, last: nat)
    requires first < |rows| && last < |rows|
    requires forall k :: 0 <= k < |rows| ==> rows[first].at <= rows[k].at <= rows[last].at
    ensures MinAt(rows) == rows[first].at && MaxAt(rows) == rows[last].at
  {
    hide MinAt, MaxAt;
  }

  lemma RunError(ev: seq<Event>, a: nat, b: nat)
    requires MaximalRun(ev, a, b)
    ensures var error := FirstError(GroupRows(ev, Group(ev, a)));
            && (error.Some? ==> exists i :: a <= i <= b && ev[i].error == error)
            && (error.None? ==> forall i :: a <= i <= b ==> ev[i].error.None?)
  {
    var rows := GroupRows(ev, Group(ev, a));
    var error := FirstError(rows);
    hide Rows, GroupRows, Group, FirstError;
    forall i | a <= i <= b && error.None?
      ensures ev[i].error.None?
    {
      var k := RunHas(ev, a, b, i);
    }
    if error.Some? {
      var k :| 0 <= k < |rows| && rows[k].error == error;
      var i := RunRow(ev, a, b, k);
      assert ev[i].error == error;
    }
  }

  lemma RunHas(ev: seq<Event>, a: nat, b: nat, i: nat) returns (k: nat)
    requires MaximalRun(ev, a, b) && a <= i <= b
    ensures k < |GroupRows(ev, Group(ev, a))| && GroupRows(ev, Group(ev, a))[k] == ev[i]
  {
    GroupIsRun(ev, a, b, i);
    RowsHave(ev, Group(ev, a), |ev|, i);
    k :| 0 <= k < |GroupRows(ev, Group(ev, a))| && GroupRows(ev, Group(ev, a))[k] == ev[i];
  }

  lemma RunRow(ev: seq<Event>, a: nat, b: nat, k: nat) returns (i: nat)
    requires MaximalRun(ev, a, b) && k < |GroupRows(ev, Group(ev, a))|
    ensures a <= i <= b && ev[i] == GroupRows(ev, Group(ev, a))[k]
  {
    i := RowsAreFrom(ev, Group(ev, a), |ev|, k);
    GroupIsRun(ev, a, b, i);
  }

  // ----- the result

  /** Row `k` of the result is the `k`-th newest run. */
  lemma RowIsRun(ev: seq<Event>, k: nat) returns (a: nat, b: nat)
    requires InOrder(ev) && k < |Query(ev)|
    ensures MaximalRun(ev, a, b) && Group(ev, a) == Groups(ev) - k && Describes(ev, a, b, Query(ev)[k])
  {
    a, b := GroupRun(ev, Groups(ev) - k);
    IncidentDescribesRun(ev, a, b);
  }

  lemma LaterGroupLaterStart(ev: seq<Event>, a: nat, b: nat)
    requires InOrder(ev) && a < |ev| && b < |ev| && Group(ev, a) < Group(ev, b)
    ensures ev[a].at < ev[b].at
  {
    if b <= a {
      GroupGrows(ev, b, a);
    }
  }

  lemma RowsDescend(ev: seq<Event>, j: nat, k: nat)
    requires InOrder(ev) && j < k < |Query(ev)|
    ensures Query(ev)[j].start > Query(ev)[k].start && Query(ev)[k].end.Some?
  {
    var a, b := RowIsRun(ev, j);
    var c, d := RowIsRun(ev, k);
    LaterGroupLaterStart(ev, c, a);
    GroupGrows(ev, a, |ev| - 1);
    hide Query, Group, Groups;
  }

  ghost predicate IsRunRow(ev: seq<Event>, incident: Incident) {
    exists a: nat, b: nat :: MaximalRun(ev, a, b) && Describes(ev, a, b, incident)
  }

  /** Each row is a maximal run; rows are newest first; only the newest can be open. */
  lemma RowsAreRuns(ev: seq<Event>)
    requires InOrder(ev)
    ensures var q := Query(ev);
            && |q| <= 50
            && (forall k :: 0 <= k < |q| ==> IsRunRow(ev, q[k]))
            && (forall j, k :: 0 <= j < k < |q| ==> q[j].start > q[k].start)
            && (forall k :: 0 < k < |q| ==> q[k].end.Some?)
  {
    var q := Query(ev);
    assert |q| <= 50;
    hide Query;
    forall k | 0 <= k < |q|
      ensures IsRunRow(ev, q[k])
    {
      var a, b := RowIsRun(ev, k);
      assert MaximalRun(ev, a, b) && Describes(ev, a, b, q[k]);
    }
    forall j, k | 0 <= j < k < |q|
      ensures q[j].start > q[k].start
    {
      RowsDescend(ev, j, k);
    }
    forall k | 0 < k < |q|
      ensures q[k].end.Some?
    {
      RowsDescend(ev, 0, k);
    }
  }

  /** Every maximal run is a row, or fifty newer ones are. */
  lemma RunsAreRows(ev: seq<Event>, a: nat, b: nat)
    requires InOrder(ev) && MaximalRun(ev, a, b)
    ensures var q := Query(ev);
            || (exists k :: 0 <= k < |q| && Describes(ev, a, b, q[k]))
            || (|q| == 50 && forall k :: 0 <= k < |q| ==> q[k].start > ev[a].at)
  {
    var q := Query(ev);
    var g := Group(ev, a);
    GroupGrows(ev, a, |ev| - 1);
    assert g > 0;
    IncidentDescribesRun(ev, a, b);
    if Groups(ev) - g < |q| {
      assert q[Groups(ev) - g] == IncidentOf(ev, g);
    } else {
      forall k | 0 <= k < |q|
        ensures q[k].start > ev[a].at
      {
        var c, d := RowIsRun(ev, k);
        LaterGroupLaterStart(ev, a, c);
      }
    }
  }
}
