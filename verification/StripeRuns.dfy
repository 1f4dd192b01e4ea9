/**
 Stripe deliveries that overlap. The handler of a subscription event selects a team without
 locking its row and then writes by team, so another transaction may commit in between.
 A delivery is one step up to its select and one step from its first write to its commit:
 its row lock, once taken, is held, and the unique index on the event id makes a second
 delivery of an event wait for the end of the first.
 */
module StripeRuns {
  import opened Options
  import opened Subscriptions
  import opened StripeEvents

  /** A delivery between its select and its write. */
  datatype Txn = Txn(event: Event, found: Option<Team>)

  datatype State = State(seen: set<string>, subs: Subs, open: map<nat, Txn>)

  datatype Action =
    | Begin(x: nat, event: Event, found: Option<Team>)
    | Commit(x: nat, event: Event, found: Option<Team>)
    | Abort(x: nat)
    | Repeat(event: Event)
    | CreditWrite(team: Team, row: Sub)

  datatype Outcome = Pending | Processed | RolledBack | Duplicate | Ignored

  /** What the credit code does to the table: new rows without Stripe ids, and two columns of the others. */
  predicate CreditsOnly(subs: Subs, team: Team, row: Sub) {
    if team in subs then row == subs[team].(used := row.used, periodEnd := row.periodEnd)
    else row.customer.None? && row.subscription.None?
  }

  predicate Enabled(s: State, a: Action) {
    match a
    case Begin(x, event, found) =>
      && x !in s.open && !event.kind.Unsupported? && event.id !in s.seen
      && (forall y :: y in s.open ==> s.open[y].event.id != event.id)
      && Selected(s.subs, event, found)
    case Commit(x, event, found) => x in s.open && s.open[x] == Txn(event, found)
    case Abort(x) => x in s.open
    case Repeat(event) => event.kind.Unsupported? || event.id in s.seen
    case CreditWrite(team, row) => CreditsOnly(s.subs, team, row)
  }

  function Apply(s: State, a: Action): State
    requires Enabled(s, a)
  {
    match a
    case Begin(x, event, found) => s.(open := s.open[x := Txn(event, found)])
    case Commit(x, event, found) =>
      (match Write(s.subs, event, found)
       case Some(subs) => State(s.seen + {event.id}, subs, s.open - {x})
       case None => s.(open := s.open - {x}))
    case Abort(x) => s.(open := s.open - {x})
    case Repeat(_) => s
    case CreditWrite(team, row) => s.(subs := s.subs[team := row])
  }

  function OutcomeOf(s: State, a: Action): Outcome
    requires Enabled(s, a)
  {
    match a
    case Commit(_, event, found) => if Write(s.subs, event, found).Some? then Processed else RolledBack
    case Abort(_) => RolledBack
    case Repeat(event) => if event.kind.Unsupported? then Ignored else Duplicate
    case _ => Pending
  }

  ghost predicate Run(s: State, acts: seq<Action>)
    decreases |acts|, 0
  {
    acts != [] ==>
      var last := |acts| - 1;
      Run(s, acts[..last]) && Enabled(Final(s, acts[..last]), acts[last])
  }

  ghost function Final(s: State, acts: seq<Action>): State
    requires Run(s, acts)
    decreases |acts|, 1
  {
    if acts == [] then s else Apply(Final(s, acts[..|acts| - 1]), acts[|acts| - 1])
  }

  /** Before the first delivery. */
  predicate Initial(s: State) {
    s.seen == {} && s.subs == map[] && s.open == map[]
  }

  /**
   Every delivery is answered: an event of no interest is ignored, a recorded one is a
   duplicate, and any other is opened unless a delivery of it is open, for which it waits.
   */
  lemma EveryDeliveryIsAnswered(s: State, e: Event, x: nat)
    requires x !in s.open
    ensures e.kind.Unsupported? ==> Enabled(s, Repeat(e)) && OutcomeOf(s, Repeat(e)) == Ignored && Apply(s, Repeat(e)) == s
    ensures !e.kind.Unsupported? && e.id in s.seen ==>
              Enabled(s, Repeat(e)) && OutcomeOf(s, Repeat(e)) == Duplicate && Apply(s, Repeat(e)) == s
    ensures !e.kind.Unsupported? && e.id !in s.seen ==>
              !Enabled(s, Repeat(e))
              && ((exists found :: Enabled(s, Begin(x, e, found))) <==> forall y :: y in s.open ==> s.open[y].event.id != e.id)
  {
    SelectAnswers(s.subs, e);
    var found :| Selected(s.subs, e, found);
    hide Selected;
    if !e.kind.Unsupported? && e.id !in s.seen && forall y :: y in s.open ==> s.open[y].event.id != e.id {
      assert Enabled(s, Begin(x, e, found));
    }
  }

  // ----- acknowledged and applied once

  ghost function OutcomeAt(s: State, acts: seq<Action>, i: nat): Outcome
    requires Run(s, acts) && i < |acts|
    decreases |acts|
  {
    if i == |acts| - 1 then OutcomeOf(Final(s, acts[..i]), acts[i]) else OutcomeAt(s, acts[..|acts| - 1], i)
  }

  /** Stripe gets a success for this event and does not send it again. */
  ghost predicate Acknowledges(s: State, acts: seq<Action>, i: nat, id: string)
    requires Run(s, acts) && i < |acts|
  {
    (acts[i].Commit? || acts[i].Repeat?) && acts[i].event.id == id
    && (OutcomeAt(s, acts, i).Processed? || OutcomeAt(s, acts, i).Duplicate?)
  }

  /** The first success of its event. */
  ghost predicate FirstSuccess(s: State, acts: seq<Action>, i: nat)
    requires Run(s, acts) && i < |acts|
  {
    && acts[i].Commit? && Acknowledges(s, acts, i, acts[i].event.id)
    && forall j :: 0 <= j < i ==> !Acknowledges(s, acts, j, acts[i].event.id)
  }

  /** The table when the first success of every event is written, in order, and nothing is checked for duplicates. */
  ghost function AppliedOnce(s: State, acts: seq<Action>): Option<Subs>
    requires Run(s, acts)
    decreases |acts|
  {
    if acts == [] then Some(s.subs)
    else
      var last := |acts| - 1;
      var before, a := AppliedOnce(s, acts[..last]), acts[last];
      if before.None? then None
      else if a.CreditWrite? then Some(before.value[a.team := a.row])
      else if FirstSuccess(s, acts, last) then Write(before.value, a.event, a.found)
      else before
  }

  lemma SameOutcomes(s: State, acts: seq<Action>, id: string)
    requires Run(s, acts) && acts != []
    ensures forall i :: 0 <= i < |acts| - 1 ==> Acknowledges(s, acts, i, id) == Acknowledges(s, acts[..|acts| - 1], i, id)
  {
  }

  /** What is recorded as seen is what was acknowledged, and no open delivery is for it. */
  lemma {:induction false} SeenIsAcknowledged(s: State, acts: seq<Action>, id: string)
    requires Initial(s) && Run(s, acts)
    ensures id in Final(s, acts).seen <==> exists i :: 0 <= i < |acts| && Acknowledges(s, acts, i, id)
    decreases |acts|
  {
    if acts != [] {
      var last := |acts| - 1;
      var rest := acts[..last];
      SeenIsAcknowledged(s, rest, id);
      SameOutcomes(s, acts, id);
      hide Write, Selected, CreditsOnly, Acknowledges;
      if i :| 0 <= i < last && Acknowledges(s, rest, i, id) {
        assert Acknowledges(s, acts, i, id);
      }
      LastAcknowledges(s, acts, id);
      if i :| 0 <= i < |acts| && Acknowledges(s, acts, i, id) {
        assert i < last ==> Acknowledges(s, rest, i, id);
      }
    }
  }

  lemma LastAcknowledges(s: State, acts: seq<Action>, id: string)
    requires Run(s, acts) && acts != []
    ensures var before := Final(s, acts[..|acts| - 1]);
            && (Acknowledges(s, acts, |acts| - 1, id) ==> id in Final(s, acts).seen)
            && (id in Final(s, acts).seen && id !in before.seen ==> Acknowledges(s, acts, |acts| - 1, id))
            && (id in before.seen ==> id in Final(s, acts).seen)
  {
    hide Write, Selected, CreditsOnly;
  }

  /** Open deliveries are of different events, none of them seen. */
  ghost predicate OnePerEvent(s: State) {
    && (forall x :: x in s.open ==> s.open[x].event.id !in s.seen)
    && (forall x, y :: x in s.open && y in s.open && x != y ==> s.open[x].event.id != s.open[y].event.id)
  }

  lemma StepIsOnePerEvent(s: State, a: Action)
    requires OnePerEvent(s) && Enabled(s, a)
    ensures OnePerEvent(Apply(s, a))
  {
    hide Write, Selected, CreditsOnly;
  }

  lemma {:induction false} OpenIsOnePerEvent(s: State, acts: seq<Action>)
    requires Initial(s) && Run(s, acts)
    ensures OnePerEvent(Final(s, acts))
    decreases |acts|
  {
    if acts != [] {
      OpenIsOnePerEvent(s, acts[..|acts| - 1]);
      StepIsOnePerEvent(Final(s, acts[..|acts| - 1]), acts[|acts| - 1]);
      hide OnePerEvent, Apply, Enabled;
    }
  }

  lemma ProcessedIsFirst(s: State, acts: seq<Action>)
    requires Initial(s) && Run(s, acts) && acts != [] && acts[|acts| - 1].Commit?
    ensures FirstSuccess(s, acts, |acts| - 1) <==> OutcomeAt(s, acts, |acts| - 1).Processed?
  {
    var last := |acts| - 1;
    var id := acts[last].event.id;
    OpenIsOnePerEvent(s, acts[..last]);
    SeenIsAcknowledged(s, acts[..last], id);
    SameOutcomes(s, acts, id);
    hide Write, Selected, CreditsOnly;
  }

  /**
   Repeated, failed and overlapping deliveries leave no other mark than the first success
   of every event, written once, in the order of the commits.
   */
  lemma {:induction false} EffectivelyOnce(s: State, acts: seq<Action>)
    requires Initial(s) && Run(s, acts)
    ensures AppliedOnce(s, acts) == Some(Final(s, acts).subs)
    decreases |acts|
  {
    if acts != [] {
      EffectivelyOnce(s, acts[..|acts| - 1]);
      if acts[|acts| - 1].Commit? {
        ProcessedIsFirst(s, acts);
      }
      hide Write, Selected, CreditsOnly, FirstSuccess;
    }
  }

  /** The unique indexes hold over every run. */
  lemma {:induction false} UniqueKept(s: State, acts: seq<Action>)
    requires Initial(s) && Run(s, acts)
    ensures Unique(Final(s, acts).subs)
    decreases |acts|
  {
    if acts != [] {
      var before, a := Final(s, acts[..|acts| - 1]), acts[|acts| - 1];
      UniqueKept(s, acts[..|acts| - 1]);
      if a.Commit? && Write(before.subs, a.event, a.found).Some? {
        WriteIsUnique(before.subs, a.event, a.found);
      } else if a.CreditWrite? {
        CreditsKeepUnique(before.subs, a.team, a.row);
      }
      hide Write, Unique, Selected, CreditsOnly;
    }
  }

  lemma CreditsKeepUnique(subs: Subs, team: Team, row: Sub)
    requires Unique(subs) && CreditsOnly(subs, team, row)
    ensures Unique(subs[team := row])
  {
  }

  // ----- serial processing

  /** The acknowledged events one after another in commit order, each selecting and writing on one table. */
  ghost function Serially(s: State, acts: seq<Action>): Option<Subs>
    requires Run(s, acts)
    decreases |acts|
  {
    if acts == [] then Some(s.subs)
    else
      var last := |acts| - 1;
      var before, a := Serially(s, acts[..last]), acts[last];
      if before.None? then None
      else if a.CreditWrite? then Some(before.value[a.team := a.row])
      else if FirstSuccess(s, acts, last) then Process(before.value, a.event)
      else before
  }

  /** At every moment of the run the table is that of serial processing so far. */
  ghost predicate AlwaysSerial(s: State, acts: seq<Action>)
    requires Run(s, acts)
    decreases |acts|
  {
    && Serially(s, acts) == Some(Final(s, acts).subs)
    && (acts != [] ==> AlwaysSerial(s, acts[..|acts| - 1]))
  }

  /** Every event that is written would still select what it selected, or changes nothing with either answer. */
  ghost predicate NoHarm(s: State, acts: seq<Action>)
    requires Run(s, acts)
    decreases |acts|
  {
    acts != [] ==>
      var last := |acts| - 1;
      && NoHarm(s, acts[..last])
      && (acts[last].Commit? && OutcomeAt(s, acts, last).Processed? ==>
            var subs := Final(s, acts[..last]).subs;
            Selected(subs, acts[last].event, acts[last].found) || Harmless(subs, acts[last].event, acts[last].found))
  }

  /** One write is that of serial processing exactly when its answer is not stale or does no harm. */
  lemma WriteIsSerialIff(subs: Subs, e: Event, found: Option<Team>)
    requires Unique(subs) && Write(subs, e, found).Some?
    ensures Process(subs, e) == Write(subs, e, found) <==> Selected(subs, e, found) || Harmless(subs, e, found)
  {
    if Selected(subs, e, found) {
      SelectAnswers(subs, e);
      var g :| Selected(subs, e, g) && Process(subs, e) == Write(subs, e, g);
      ChoiceIsIrrelevant(subs, e, found, g);
    } else {
      StaleAgreesIff(subs, e, found);
    }
    hide Write, Selected, Unique;
  }

  /**
   A run has the tables of serial processing, with answers of its own, exactly when no
   stale answer does harm. A table can differ and agree again later, so this is about
   every moment of the run.
   */
  lemma {:induction false} AlwaysSerialIffNoHarm(s: State, acts: seq<Action>)
    requires Initial(s) && Run(s, acts)
    ensures AlwaysSerial(s, acts) <==> NoHarm(s, acts)
    decreases |acts|
  {
    if acts != [] {
      var rest, a := acts[..|acts| - 1], acts[|acts| - 1];
      AlwaysSerialIffNoHarm(s, rest);
      UniqueKept(s, rest);
      if a.Commit? {
        ProcessedIsFirst(s, acts);
        if OutcomeAt(s, acts, |acts| - 1).Processed? {
          WriteIsSerialIff(Final(s, rest).subs, a.event, a.found);
        }
      }
      hide Write, Selected, CreditsOnly, FirstSuccess, Process, Harmless, Unique;
    }
  }

  // ----- events with the ids of their own team

  /**
   What Stripe sends: a subscription has one customer, named in each of its events, and
   a checkout is paid by a customer of its own team.
   */
  ghost predicate Owned(e: Event, owner: string -> string, payer: string -> Team) {
    match e.kind
    case CheckoutCompleted =>
      e.data.team.Some? && e.data.subscription.Some? ==>
        e.data.customer == Some(owner(e.data.subscription.value)) && payer(owner(e.data.subscription.value)) == e.data.team.value
    case SubscriptionChanged =>
      e.data.customer == if e.data.id.Some? then Some(owner(e.data.id.value)) else None
    case _ => true
  }

  ghost predicate OwnedRows(subs: Subs, owner: string -> string, payer: string -> Team) {
    forall t :: t in subs ==>
      && (subs[t].customer.Some? ==> payer(subs[t].customer.value) == t)
      && (subs[t].subscription.Some? ==> subs[t].customer == Some(owner(subs[t].subscription.value)))
  }

  /** A change event that is open has selected the team that pays with its customer. */
  ghost predicate OwnedTxn(txn: Txn, owner: string -> string, payer: string -> Team) {
    && Owned(txn.event, owner, payer)
    && (txn.event.kind.SubscriptionChanged? && txn.found.Some? ==>
          txn.event.data.customer.Some? && payer(txn.event.data.customer.value) == txn.found.value)
  }

  ghost predicate OwnedState(s: State, owner: string -> string, payer: string -> Team) {
    && OwnedRows(s.subs, owner, payer)
    && forall x :: x in s.open ==> OwnedTxn(s.open[x], owner, payer)
  }

  lemma OwnedIsUnique(subs: Subs, owner: string -> string, payer: string -> Team)
    requires OwnedRows(subs, owner, payer)
    ensures Unique(subs)
  {
  }

  lemma OwnedSelect(subs: Subs, e: Event, found: Option<Team>, owner: string -> string, payer: string -> Team)
    requires OwnedRows(subs, owner, payer) && Owned(e, owner, payer) && Selected(subs, e, found)
    ensures OwnedTxn(Txn(e, found), owner, payer)
  {
  }

  /** Such an event is written, to whatever the table has become, and the rows stay those of their teams. */
  lemma OwnedEventIsWritten(subs: Subs, e: Event, found: Option<Team>, owner: string -> string, payer: string -> Team)
    requires OwnedRows(subs, owner, payer) && OwnedTxn(Txn(e, found), owner, payer)
    ensures Write(subs, e, found).Some? && OwnedRows(Write(subs, e, found).value, owner, payer)
  {
    var o := e.data;
    match e.kind
    case CheckoutCompleted =>
      if o.team.Some? && o.subscription.Some? && o.subscription != Some("") {
        assert OwnedRows(subs[o.team.value := CheckedOutRow(subs, o)], owner, payer);
        OwnedIsUnique(subs[o.team.value := CheckedOutRow(subs, o)], owner, payer);
      }
    case SubscriptionChanged =>
      if found.Some? && found.value in subs {
        assert OwnedRows(subs[found.value := ChangedRow(subs[found.value], o)], owner, payer);
        OwnedIsUnique(subs[found.value := ChangedRow(subs[found.value], o)], owner, payer);
      }
    case _ =>
  }

  lemma OwnedStep(s: State, a: Action, owner: string -> string, payer: string -> Team)
    requires OwnedState(s, owner, payer) && Enabled(s, a) && (a.Begin? ==> Owned(a.event, owner, payer))
    ensures OwnedState(Apply(s, a), owner, payer)
    ensures OutcomeOf(s, a).RolledBack? ==> a.Abort?
  {
    hide Write, Selected, Owned;
    if a.Begin? {
      OwnedSelect(s.subs, a.event, a.found, owner, payer);
    } else if a.Commit? {
      OwnedEventIsWritten(s.subs, a.event, a.found, owner, payer);
    }
  }

  /** With Stripe's own ids no run, however its deliveries overlap, loses an event to a unique index. */
  lemma {:induction false} OwnedRunsAlwaysWrite(s: State, acts: seq<Action>, owner: string -> string, payer: string -> Team)
    requires Initial(s) && Run(s, acts)
    requires forall i :: 0 <= i < |acts| && acts[i].Begin? ==> Owned(acts[i].event, owner, payer)
    ensures OwnedState(Final(s, acts), owner, payer)
    ensures forall i :: 0 <= i < |acts| && OutcomeAt(s, acts, i).RolledBack? ==> acts[i].Abort?
    decreases |acts|
  {
    if acts != [] {
      var last := |acts| - 1;
      OwnedRunsAlwaysWrite(s, acts[..last], owner, payer);
      OwnedStep(Final(s, acts[..last]), acts[last], owner, payer);
      hide OwnedState, Owned, Enabled, Apply;
    }
  }

  // ----- runs from the empty table

  lemma OneMore(s: State, acts: seq<Action>, a: Action)
    requires Run(s, acts) && Enabled(Final(s, acts), a)
    ensures Run(s, acts + [a]) && Final(s, acts + [a]) == Apply(Final(s, acts), a)
  {
    assert (acts + [a])[..|acts|] == acts;
  }

  /** One more step is harmful exactly when it writes a stale answer that does harm. */
  lemma OneMoreHarm(s: State, acts: seq<Action>, a: Action)
    requires Run(s, acts) && Enabled(Final(s, acts), a)
    ensures Run(s, acts + [a])
    ensures var subs := Final(s, acts).subs;
            NoHarm(s, acts + [a]) <==>
              && NoHarm(s, acts)
              && (a.Commit? && Write(subs, a.event, a.found).Some? ==>
                    Selected(subs, a.event, a.found) || Harmless(subs, a.event, a.found))
  {
    OneMore(s, acts, a);
    assert (acts + [a])[..|acts|] == acts;
    assert OutcomeAt(s, acts + [a], |acts|) == OutcomeOf(Final(s, acts), a);
    hide Write, Selected, Harmless, CreditsOnly;
  }

  function Paid(id: string, team: Team, customer: Option<string>, subscription: string): Event {
    Event(id, CheckoutCompleted, StripeObject(
      None, customer, Some(subscription), None, None, None, Some(team), Some(Pro), None, None))
  }

  function PaidRow(customer: Option<string>, subscription: string): Sub {
    Sub(Pro, Active, None, 0, customer, Some(subscription), false, Month)
  }

  function Changed(id: string, customer: string, subscription: string): Event {
    Event(id, SubscriptionChanged, ObjectOf(customer, subscription))
  }

  function Deleted(id: string, customer: string, subscription: string): Event {
    Event(id, SubscriptionDeleted, ObjectOf(customer, subscription))
  }

  function ObjectOf(customer: string, subscription: string): StripeObject {
    StripeObject(Some(subscription), Some(customer), None, Some("active"), None, None, None, None, None, None)
  }

  /** A delivery that nothing interrupts. */
  lemma Delivered(s: State, acts: seq<Action>, x: nat, e: Event, found: Option<Team>) returns (acts': seq<Action>)
    requires Run(s, acts) && Enabled(Final(s, acts), Begin(x, e, found)) && Write(Final(s, acts).subs, e, found).Some?
    ensures Run(s, acts')
    ensures var before := Final(s, acts);
            Final(s, acts') == State(before.seen + {e.id}, Write(before.subs, e, found).value, before.open)
  {
    var before := Final(s, acts);
    OneMore(s, acts, Begin(x, e, found));
    OneMore(s, acts + [Begin(x, e, found)], Commit(x, e, found));
    acts' := acts + [Begin(x, e, found)] + [Commit(x, e, found)];
    assert before.open[x := Txn(e, found)] - {x} == before.open;
    hide Write, Selected;
  }

  lemma FirstPaid(s: State, team: Team, customer: string, s1: string) returns (acts: seq<Action>)
    requires Initial(s) && s1 != ""
    ensures Run(s, acts) && Final(s, acts) == State({"1"}, map[team := PaidRow(Some(customer), s1)], map[])
  {
    acts := Delivered(s, [], 0, Paid("1", team, Some(customer), s1), None);
    assert Write(s.subs, Paid("1", team, Some(customer), s1), None).value == map[team := PaidRow(Some(customer), s1)];
  }

  /** One checkout that arrives without its customer is enough for a split, and then for a change event that never succeeds. */
  lemma SplitNeedsOneMissingCustomer(s: State, team: Team, other: Team, customer: string, s1: string, s2: string)
    returns (acts: seq<Action>)
    requires Initial(s) && team != other && s1 != s2 && s1 != "" && s2 != ""
    ensures Run(s, acts) && Split(Final(s, acts).subs, ObjectOf(customer, s2))
  {
    acts := FirstPaid(s, team, customer, s1);
    var one := Final(s, acts);
    var e := Paid("2", other, None, s2);
    var two: Subs := map[team := PaidRow(Some(customer), s1), other := PaidRow(None, s2)];
    assert one.subs[other := PaidRow(None, s2)] == two;
    assert Write(one.subs, e, None) == Some(two);
    assert "2" !in {"1"};
    acts := Delivered(s, acts, 0, e, None);
    assert two[other].subscription == Some(s2) && two[team].customer == Some(customer);
    hide Run, Final;
    assert Split(two, ObjectOf(customer, s2));
  }

  lemma DeletionHarms(rows: Subs, deletion: Event, team: Team)
    requires deletion.kind.SubscriptionDeleted? && team in rows && HoldsAnother(rows[team], deletion.data)
    ensures !Selected(rows, deletion, Some(team)) && !Harmless(rows, deletion, Some(team))
    ensures Write(rows, deletion, Some(team)) == Some(rows[team := FreedRow(rows[team])])
  {
    assert WriteDeletion(rows, Some(team))[team].subscription == None;
  }

  /**
   A deletion that has selected its team before a new checkout of the team commits erases
   the new subscription. All ids are those Stripe sends, and in either serial order of the
   two events the new subscription is on the row.
   */
  lemma LateDeletionErasesNewSubscription(s: State, team: Team, customer: string, s1: string, s2: string)
    returns (acts: seq<Action>)
    requires Initial(s) && s1 != s2 && s1 != "" && s2 != ""
    ensures Run(s, acts) && Final(s, acts).seen == {"1", "2", "3"} && !AlwaysSerial(s, acts)
    ensures team in Final(s, acts).subs && Final(s, acts).subs[team].subscription == None
    ensures Final(s, acts).subs[team].plan == Free
    ensures Owned(Paid("3", team, Some(customer), s2), _ => customer, _ => team)
    ensures BothSerialOrdersKeep(map[team := PaidRow(Some(customer), s1)], team, customer, s1, s2)
  {
    acts := FirstPaid(s, team, customer, s1);
    var rows: Subs := map[team := PaidRow(Some(customer), s1)];
    var deletion, paid := Deleted("2", customer, s1), Paid("3", team, Some(customer), s2);
    assert Matches(rows[team], deletion.data, true);
    assert "2" !in {"1"} && "3" !in {"1"} && "3" != "2";
    OneMore(s, acts, Begin(1, deletion, Some(team)));
    acts := acts + [Begin(1, deletion, Some(team))];
    var rows2: Subs := map[team := PaidRow(Some(customer), s2)];
    assert Write(rows, paid, None) == Some(rows2) by {
      assert CheckedOutRow(rows, paid.data) == PaidRow(Some(customer), s2);
      assert rows[team := PaidRow(Some(customer), s2)] == rows2;
    }
    acts := Delivered(s, acts, 2, paid, None);
    DeletionHarms(rows2, deletion, team);
    SerialOrders(team, customer, s1, s2);
    hide Write, Selected, Harmless, NoHarm, AlwaysSerial, BothSerialOrdersKeep;
    OneMore(s, acts, Commit(1, deletion, Some(team)));
    OneMoreHarm(s, acts, Commit(1, deletion, Some(team)));
    acts := acts + [Commit(1, deletion, Some(team))];
    AlwaysSerialIffNoHarm(s, acts);
  }

  /** The new subscription is on the row when the checkout comes before the deletion, and when it comes after it. */
  ghost predicate BothSerialOrdersKeep(rows: Subs, team: Team, customer: string, s1: string, s2: string) {
    var deletion, paid := Deleted("2", customer, s1), Paid("3", team, Some(customer), s2);
    && KeptBy(Write(rows, paid, None), deletion, team, s2)
    && forall found: Option<Team> :: Selected(rows, deletion, found) ==> KeptBy(Write(rows, deletion, found), paid, team, s2)
  }

  /** The second event, on the table the first one leaves, ends with the subscription on the team's row. */
  ghost predicate KeptBy(first: Option<Subs>, second: Event, team: Team, subscription: string) {
    && first.Some?
    && forall found: Option<Team> :: Selected(first.value, second, found) ==> OnRow(Write(first.value, second, found), team, subscription)
  }

  predicate OnRow(subs: Option<Subs>, team: Team, subscription: string) {
    subs.Some? && team in subs.value && subs.value[team].subscription == Some(subscription)
  }

  lemma SerialOrders(team: Team, customer: string, s1: string, s2: string)
    requires s1 != s2 && s1 != "" && s2 != ""
    ensures BothSerialOrdersKeep(map[team := PaidRow(Some(customer), s1)], team, customer, s1, s2)
  {
  }

  lemma NoHarmStep(s: State, acts: seq<Action>, now: State, a: Action) returns (acts': seq<Action>)
    requires Run(s, acts) && Final(s, acts) == now && NoHarm(s, acts) && Enabled(now, a)
    requires a.Commit? ==> Selected(now.subs, a.event, a.found) || Harmless(now.subs, a.event, a.found)
    ensures acts' == acts + [a] && Run(s, acts') && Final(s, acts') == Apply(now, a) && NoHarm(s, acts')
  {
    hide *;
    acts' := acts + [a];
    OneMore(s, acts, a);
    OneMoreHarm(s, acts, a);
  }

  /** A change that reports what the row shows. */
  lemma EchoIsHarmless(rows: Subs, change: Event, team: Team, customer: string, s1: string)
    requires rows == map[team := PaidRow(Some(customer), s1)] && change == Changed("1", customer, s1)
    ensures !Selected(rows, change, None) && Harmless(rows, change, None)
  {
    assert Matches(rows[team], change.data, false);
    assert forall found :: Selected(rows, change, found) ==> found == Some(team);
    assert ChangedRow(rows[team], change.data) == rows[team];
    assert rows[team := rows[team]] == rows;
  }

  lemma PaidIsWritten(team: Team, customer: string, s1: string)
    requires s1 != ""
    ensures Write(map[], Paid("2", team, Some(customer), s1), None) == Some(map[team := PaidRow(Some(customer), s1)])
  {
  }

  /** A change that has selected nothing, and the checkout of its subscription beside it. */
  function Waiting(change: Event): map<nat, Txn> {
    map[0 := Txn(change, None)]
  }

  function Beside(change: Event, paid: Event): map<nat, Txn> {
    map[0 := Txn(change, None), 1 := Txn(paid, None)]
  }

  lemma StaleBegins(s: State, change: Event, paid: Event)
    requires Initial(s) && change.kind.SubscriptionChanged? && paid.kind.CheckoutCompleted? && change.id != paid.id
    ensures Run(s, []) && Final(s, []) == s && NoHarm(s, [])
    ensures Enabled(s, Begin(0, change, None)) && Apply(s, Begin(0, change, None)) == State({}, map[], Waiting(change))
    ensures var s1 := State({}, map[], Waiting(change));
            Enabled(s1, Begin(1, paid, None)) && Apply(s1, Begin(1, paid, None)) == State({}, map[], Beside(change, paid))
  {
    assert Waiting(change)[1 := Txn(paid, None)] == Beside(change, paid);
  }

  lemma StaleCommits(change: Event, paid: Event, rows: Subs)
    requires change.kind.SubscriptionChanged? && paid.kind.CheckoutCompleted?
    requires Write(map[], paid, None) == Some(rows) && Write(rows, change, None) == Some(rows)
    ensures var s2, a := State({}, map[], Beside(change, paid)), Commit(1, paid, None);
            Enabled(s2, a) && Selected(map[], paid, None) && Apply(s2, a) == State({paid.id}, rows, Waiting(change))
    ensures var s3, a := State({paid.id}, rows, Waiting(change)), Commit(0, change, None);
            Enabled(s3, a) && Apply(s3, a) == State({paid.id, change.id}, rows, map[])
  {
    assert Beside(change, paid) - {1} == Waiting(change);
    assert Waiting(change) - {0} == map[];
    hide Write;
  }

  /**
   A stale answer alone is no failure: a change that selects nothing before the checkout of
   its subscription commits, and is written after it, leaves the serial table.
   */
  lemma StaleAnswerCanBeHarmless(s: State, team: Team, customer: string, s1: string) returns (acts: seq<Action>)
    requires Initial(s) && s1 != ""
    ensures Run(s, acts) && Final(s, acts).seen == {"2", "1"} && AlwaysSerial(s, acts)
    ensures acts != [] && acts[|acts| - 1] == Commit(0, Changed("1", customer, s1), None)
    ensures !Selected(Final(s, acts[..|acts| - 1]).subs, Changed("1", customer, s1), None)
  {
    var change, paid := Changed("1", customer, s1), Paid("2", team, Some(customer), s1);
    var rows: Subs := map[team := PaidRow(Some(customer), s1)];
    assert "1" != "2";
    PaidIsWritten(team, customer, s1);
    EchoIsHarmless(rows, change, team, customer, s1);
    StaleBegins(s, change, paid);
    StaleCommits(change, paid, rows);
    hide *;
    acts := NoHarmStep(s, [], s, Begin(0, change, None));
    acts := NoHarmStep(s, acts, State({}, map[], Waiting(change)), Begin(1, paid, None));
    acts := NoHarmStep(s, acts, State({}, map[], Beside(change, paid)), Commit(1, paid, None));
    ghost var before := acts;
    acts := NoHarmStep(s, acts, State({paid.id}, rows, Waiting(change)), Commit(0, change, None));
    assert acts[..|acts| - 1] == before;
    AlwaysSerialIffNoHarm(s, acts);
  }

  /** Without any overlap, a change of the old subscription takes the row of the new one over, as both have one customer. */
  lemma OldChangeTakesOver(s: State, team: Team, customer: string, s1: string, s2: string) returns (acts: seq<Action>)
    requires Initial(s) && s1 != s2 && s1 != "" && s2 != ""
    ensures Run(s, acts) && Final(s, acts).seen == {"1", "2", "3"}
    ensures team in Final(s, acts).subs && Final(s, acts).subs[team].subscription == Some(s1)
  {
    acts := FirstPaid(s, team, customer, s1);
    var rows: Subs := map[team := PaidRow(Some(customer), s1)];
    var rows2: Subs := map[team := PaidRow(Some(customer), s2)];
    var paid, change := Paid("2", team, Some(customer), s2), Changed("3", customer, s1);
    assert Write(rows, paid, None) == Some(rows2) by {
      assert CheckedOutRow(rows, paid.data) == PaidRow(Some(customer), s2);
      assert rows[team := PaidRow(Some(customer), s2)] == rows2;
    }
    assert "2" !in {"1"} && "3" !in {"1"} + {"2"};
    acts := Delivered(s, acts, 0, paid, None);
    assert Matches(rows2[team], change.data, false);
    assert Write(rows2, change, Some(team)).Some? by {
      RowFits(rows2, team, ChangedRow(rows2[team], change.data));
    }
    acts := Delivered(s, acts, 0, change, Some(team));
  }

  // ----- the code

  class BillingStore {
    var seen: set<string>
    var subs: Subs
    var open: map<nat, Txn>

    function View(): State
      reads this
    {
      State(seen, subs, open)
    }

    constructor (s: State)
      ensures View() == s
    {
      seen, subs, open := s.seen, s.subs, s.open;
    }

    method CheckoutCompleted(o: StripeObject) returns (ok: bool)
      modifies `subs
      ensures ok <==> WriteCheckout(old(subs), o).Some?
      ensures ok ==> WriteCheckout(old(subs), o) == Some(subs)
    {
      if o.team.None? || o.subscription.None? || o.subscription == Some("") {
        return true;
      }
      var plan := if o.metadataPlan.Some? then o.metadataPlan.value else Pro;
      var team := o.team.value;
      var row := if team !in subs then
          Sub(plan, Active, ToDate(o.periodEndSeconds), 0, o.customer, o.subscription, false, Month)
        else
          subs[team].(plan := plan, status := Active,
            customer := Coalesce(o.customer, subs[team].customer),
            subscription := o.subscription,
            periodEnd := Coalesce(ToDate(o.periodEndSeconds), subs[team].periodEnd));
      subs := subs[team := row];
      ok := Unique(subs);
    }

    /** The updates by team, on the row as it is when they run. */
    method SubscriptionEvent(o: StripeObject, deletion: bool, found: Option<Team>) returns (ok: bool)
      requires Unique(subs)
      modifies `subs
      ensures var r := if deletion then Some(WriteDeletion(old(subs), found)) else WriteChange(old(subs), o, found);
              ok == r.Some? && (ok ==> r == Some(subs))
    {
      if found.None? || found.value !in subs {
        return true;
      }
      var team := found.value;
      if deletion {
        subs := subs[team := subs[team].(plan := Free, status := Active, cancelAtPeriodEnd := false,
                                         interval := Month, subscription := None, periodEnd := None)];
        return true;
      }
      var row := subs[team];
      subs := subs[team := row.(
        status := StatusOf(o.status),
        periodEnd := Coalesce(ToDate(o.periodEndSeconds), row.periodEnd),
        customer := Coalesce(o.customer, row.customer),
        subscription := Coalesce(o.id, row.subscription),
        cancelAtPeriodEnd := if o.cancelAtPeriodEnd.Some? then o.cancelAtPeriodEnd.value else row.cancelAtPeriodEnd)];
      ok := Unique(subs);
      UniqueColumns(subs, old(subs)[team := ChangedRow(row, o)]);
      if !ok {
        return;
      }
      if o.pricePlan.Some? {
        subs := subs[team := subs[team].(plan := o.pricePlan.value)];
      }
      if o.interval.Some? {
        subs := subs[team := subs[team].(interval := o.interval.value)];
      }
      assert subs[team] == ChangedRow(row, o);
      assert subs == old(subs)[team := ChangedRow(row, o)];
    }

    /** An event up to its select: duplicates and unsupported events end here. */
    method BeginEvent(x: nat, event: Event, found: Option<Team>) returns (outcome: Outcome)
      requires Enabled(View(), Begin(x, event, found)) || Enabled(View(), Repeat(event))
      modifies this
      ensures var a := if Enabled(old(View()), Repeat(event)) then Repeat(event) else Begin(x, event, found);
              View() == Apply(old(View()), a) && outcome == OutcomeOf(old(View()), a)
    {
      if event.kind.Unsupported? {
        return Ignored;
      }
      if event.id in seen {
        return Duplicate;
      }
      open := open[x := Txn(event, found)];
      outcome := Pending;
    }

    /** The rest of it: the writes and the commit, or a rollback of both the writes and the registration. */
    method FinishEvent(x: nat, fails: bool) returns (outcome: Outcome)
      requires x in open && Unique(subs)
      modifies this
      ensures var txn := old(open)[x];
              var a := if fails then Abort(x) else Commit(x, txn.event, txn.found);
              View() == Apply(old(View()), a) && outcome == OutcomeOf(old(View()), a)
    {
      var begin := View();
      var txn := open[x];
      open := open - {x};
      var ok := true;
      if txn.event.kind.CheckoutCompleted? {
        ok := CheckoutCompleted(txn.event.data);
      } else if txn.event.kind.SubscriptionChanged? || txn.event.kind.SubscriptionDeleted? {
        ok := SubscriptionEvent(txn.event.data, txn.event.kind.SubscriptionDeleted?, txn.found);
      }
      if fails || !ok {
        subs := begin.subs;
        return RolledBack;
      }
      seen := seen + {txn.event.id};
      outcome := Processed;
    }
  }
}
